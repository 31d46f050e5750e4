/** The record that travels through the mailbox (`URL_Data`): its 30-byte `My_URLString`. */
module UrlData {

  const URL_SIZE := 30
  const NUL := 0 as char

  type UrlString = u: seq<char> | |u| == URL_SIZE witness seq(URL_SIZE, _ => NUL)
}
