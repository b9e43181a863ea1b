/**
 * Accounts as the validators see them through the user service, and the
 * external primitives the controller calls: the HTML `escape` sanitizer and
 * bcrypt's `hash` and `compare`.
 */
module Accounts {
  import opened JsStrings

  type UserId = nat

  /** A bcrypt digest; its structure is not modelled. */
  type Hash = string

  /**
   * A stored account. `password` is null for accounts created through a
   * sign-in provider; `facebookId` and `googleId` record the provider links.
   */
  datatype Account = Account(
    id: UserId,
    email: string,
    password: Option<Hash>,
    facebookId: Option<string>,
    googleId: Option<string>)

  /** The read-only lookups the validators make: by email and by id. */
  datatype Directory = Directory(byEmail: map<string, Account>, byId: map<UserId, Account>)

  /** `getUserByEmail`: the account stored under `email`, if any. */
  function FindByEmail(d: Directory, email: string): Option<Account> {
    if email in d.byEmail then Some(d.byEmail[email]) else None
  }

  /** `getUserById`: the account stored under `id`, if any. */
  function FindById(d: Directory, id: UserId): Option<Account> {
    if id in d.byId then Some(d.byId[id]) else None
  }

  /** The directory after the user service has stored `a`. */
  function WithAccount(d: Directory, a: Account): (r: Directory)
    ensures FindByEmail(r, a.email) == Some(a) && FindById(r, a.id) == Some(a)
    ensures forall e :: e != a.email ==> FindByEmail(r, e) == FindByEmail(d, e)
    ensures forall i :: i != a.id ==> FindById(r, i) == FindById(d, i)
  {
    Directory(d.byEmail[a.email := a], d.byId[a.id := a])
  }

  /** `user.facebookId` is truthy. */
  predicate FacebookLinked(a: Account) {
    Truthy(a.facebookId)
  }

  /** `user.googleId` is truthy. */
  predicate GoogleLinked(a: Account) {
    Truthy(a.googleId)
  }

  /** How an awaited `bcrypt.compare` ends: it resolves to a boolean or rejects with a message. */
  datatype CompareOutcome = Compared(matched: bool) | CompareFailed(message: string)

  /**
   * The primitives the controller borrows from its libraries, taken as
   * parameters: the `escape` sanitizer, `bcrypt.hash` and `bcrypt.compare`
   * (which sees the stored password, null for provider accounts).
   */
  datatype Externals = Externals(
    escape: string -> string,
    hash: string -> Hash,
    compare: (string, Option<Hash>) -> CompareOutcome)

  /** The characters the HTML `escape` sanitizer rewrites. */
  predicate HtmlSpecial(c: char) {
    c == '&' || c == '<' || c == '>' || c == '"' || c == '\'' || c == '/' || c == '\\' || c == '`'
  }

  predicate PlainText(s: string) {
    forall i :: 0 <= i < |s| ==> !HtmlSpecial(s[i])
  }

  /** `escape` leaves text without HTML-special characters as it is. */
  ghost predicate EscapeKeepsPlainText(x: Externals) {
    forall s :: PlainText(s) ==> x.escape(s) == s
  }
}
