/**
 * The external state the three controllers read and write: the Redis code
 * store, the user table, the session's code slot, the access-token table and
 * the mail queue. The controllers themselves keep no state; each of their
 * actions is a method that receives this object.
 */
module Stores {
  import opened Wrappers

  /** A user row; the password is kept as given (hashing belongs to the ORM). */
  datatype User = User(username: string, email: string, nickname: Option<string>, password: string)

  /** An access token: its owner, its abilities and its lifetime as written in the source. */
  datatype Token = Token(owner: User, abilities: seq<string>, expiresIn: string)

  /** A queued mail: recipient, sender, subject, view template and the view's `code` datum. */
  datatype Mail = Mail(to: string, from: string, subject: string, view: string, code: int)

  /** `User.findBy("email", email)` finds a row. */
  predicate HasEmail(users: set<User>, email: string) {
    exists u :: u in users && u.email == email
  }

  /** `User.findBy("username", name)` finds a row. */
  predicate HasUsername(users: set<User>, name: string) {
    exists u :: u in users && u.username == name
  }

  /** No two rows share an email. */
  ghost predicate EmailsUnique(users: set<User>) {
    forall u, v :: u in users && v in users && u.email == v.email ==> u == v
  }

  /** No two rows share a username. */
  ghost predicate UsernamesUnique(users: set<User>) {
    forall u, v :: u in users && v in users && u.username == v.username ==> u == v
  }

  class Backend {
    /** Redis: the value under key `user.email.code:<email>`, by email. */
    var codes: map<string, int>
    /** The user table. */
    var users: set<User>
    /** The session value under key `user.email.code`. */
    var sessionCode: Option<int>
    /** The access-token table, in creation order. */
    var tokens: seq<Token>
    /** Mails handed to `mail.sendLater`, in order. */
    var outbox: seq<Mail>
  }
}
