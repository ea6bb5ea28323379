/** A cookie as Electron's cookie store reports it (`session.cookies.get`). Fields that
    Electron may leave out are optional. */
module Cookies {
  import opened Wrappers

  datatype Cookie = Cookie(
    name: string,
    value: string,
    domain: string,
    path: Option<string>,
    secure: Option<bool>,
    httpOnly: Option<bool>,
    sameSite: Option<string>)
}
