/**
 * Password recovery: an administrator holding the shared secret asks for a reset link for an
 * email, which stores a fresh token; the link's page then redeems the token once to set a new
 * password. The random token, the environment values and the password hash are parameters.
 */
module PasswordReset {
  import opened Wrappers
  import opened Tables
  import opened Query

  /** Python's `f"{x}"` of an optional environment value: a missing one prints as `None`. */
  function Show(s: Option<string>): (text: string)
    ensures s.Some? ==> text == s.value
  {
    match s
    case None => "None"
    case Some(v) => v
  }

  const ResetPath: string := "/reset-password/"

  /** The link starts with the frontend address and ends with the token, so the page can read the token back. */
  lemma LinkCarriesToken(frontendUrl: Option<string>, token: string)
    ensures var link := Show(frontendUrl) + ResetPath + token;
            && link[|link| - |token|..] == token
            && link[..|Show(frontendUrl)|] == Show(frontendUrl)
  {
    var link := Show(frontendUrl) + ResetPath + token;
    assert link == (Show(frontendUrl) + ResetPath) + token;
  }

  /**
   * `POST /generate-reset-link/`: 403 unless the header equals the configured secret (both may
   * be missing), 404 for an unknown email; otherwise one new unused token row for that user.
   */
  method GenerateResetLink(db: Db, header: Option<string>, secret: Option<string>, email: string,
                           token: string, frontendUrl: Option<string>)
    returns (status: int, link: Option<string>)
    requires db.Valid()
    modifies db`resetTokens
    ensures db.Valid()
    ensures header != secret ==> status == 403 && link == None && db.resetTokens == old(db.resetTokens)
    ensures header == secret ==>
      match FirstIndex(db.users, (u: User) => u.email == email)
      case None => status == 404 && link == None && db.resetTokens == old(db.resetTokens)
      case Some(k) =>
        && status == 200
        && db.resetTokens == old(db.resetTokens) + [ResetToken(db.users[k].id, token, false)]
        && link == Some(Show(frontendUrl) + ResetPath + token)
  {
    if header != secret {
      return 403, None;
    }
    var k := FirstIndex(db.users, (u: User) => u.email == email);
    if k.None? {
      return 404, None;
    }
    db.resetTokens := db.resetTokens + [ResetToken(db.users[k.value].id, token, false)];
    return 200, Some(Show(frontendUrl) + ResetPath + token);
  }

  /** The row the redemption reads: the first one carrying the token. */
  function TokenRow(tokens: seq<ResetToken>, token: string): Option<nat> {
    FirstIndex(tokens, (t: ResetToken) => t.token == token)
  }

  /** The answer a redemption gives: 400 for an unknown or used token, 404 for a missing user, else 200. */
  function ResetStatus(users: seq<User>, tokens: seq<ResetToken>, token: string): int {
    match TokenRow(tokens, token)
    case None => 400
    case Some(k) =>
      if tokens[k].used then 400
      else if FirstIndex(users, (u: User) => u.id == tokens[k].userId).None? then 404
      else 200
  }

  /** Every row carrying the token is marked used (the `UPDATE ... WHERE token = ...`). */
  function MarkUsed(tokens: seq<ResetToken>, token: string): (r: seq<ResetToken>)
    ensures |r| == |tokens|
    ensures forall i :: 0 <= i < |r| ==> r[i].userId == tokens[i].userId && r[i].token == tokens[i].token
    ensures forall i :: 0 <= i < |r| ==> (r[i].used <==> tokens[i].used || tokens[i].token == token)
  {
    seq(|tokens|, i requires 0 <= i < |tokens| =>
      if tokens[i].token == token then tokens[i].(used := true) else tokens[i])
  }

  /** A token that has been redeemed cannot be redeemed again, whatever the users table holds. */
  lemma SecondResetFails(users: seq<User>, users': seq<User>, tokens: seq<ResetToken>, token: string)
    requires ResetStatus(users, tokens, token) == 200
    ensures ResetStatus(users', MarkUsed(tokens, token), token) == 400
  {
    var k := TokenRow(tokens, token).value;
    var marked := MarkUsed(tokens, token);
    assert TokenRow(marked, token) == Some(k) by {
      assert forall i :: 0 <= i < |marked| ==> marked[i].token == tokens[i].token;
    }
  }

  /**
   * `POST /reset-password/{token}`: the answer of `ResetStatus`; on success the token's user gets
   * the new hash, every row with the token is marked used and no other user changes.
   */
  method ResetPassword(db: Db, token: string, newPassword: string, hash: string -> string) returns (status: int)
    requires db.Valid()
    modifies db`users, db`resetTokens
    ensures db.Valid()
    ensures status == ResetStatus(old(db.users), old(db.resetTokens), token)
    ensures status != 200 ==> db.users == old(db.users) && db.resetTokens == old(db.resetTokens)
    ensures status == 200 ==>
      var userId := old(db.resetTokens)[TokenRow(old(db.resetTokens), token).value].userId;
      var j := FirstIndex(old(db.users), (u: User) => u.id == userId).value;
      && db.users == old(db.users)[j := old(db.users)[j].(passwordHash := hash(newPassword))]
      && db.resetTokens == MarkUsed(old(db.resetTokens), token)
    ensures forall i :: 0 <= i < |db.users| ==>
      db.users[i].id == old(db.users)[i].id && db.users[i].email == old(db.users)[i].email
    ensures status == 200 ==>
      var userId := old(db.resetTokens)[TokenRow(old(db.resetTokens), token).value].userId;
      forall i :: 0 <= i < |db.users| && db.users[i].id != userId ==> db.users[i] == old(db.users)[i]
  {
    var k := TokenRow(db.resetTokens, token);
    if k.None? {
      return 400;
    }
    var entry := db.resetTokens[k.value];
    if entry.used {
      return 400;
    }
    var j := FirstIndex(db.users, (u: User) => u.id == entry.userId);
    if j.None? {
      return 404;
    }
    var user := db.users[j.value];
    var updated := user.(passwordHash := hash(newPassword));
    DistinctUpdate(db.users, j.value, updated, (u: User) => u.id);
    DistinctUpdate(db.users, j.value, updated, (u: User) => u.email);
    db.users := db.users[j.value := updated];
    db.resetTokens := MarkUsed(db.resetTokens, token);
    return 200;
  }
}
