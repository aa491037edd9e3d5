/** A cookie as the container passes it around: a name and a value. */
module Cookies {
  datatype Cookie = Cookie(key: string, value: string)

  /** The name of the cookie that carries a session id. */
  const SESSION_COOKIE: string := "JSESSIONID"
}
