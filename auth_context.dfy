/**
 * The client's session: the token and the user id live both in the browser's key-value
 * storage (so they survive a reload) and in two state cells the screens read. Storage is
 * the map `storage`; `getItem` of a missing key is `Null`.
 */
module Session {
  import opened JsValues

  const TokenKey: string := "token"
  const UserIdKey: string := "user_id"

  /** `localStorage.getItem(key)`. */
  function Stored(storage: map<string, string>, key: string): (v: JsValue)
    ensures v.Null? <==> key !in storage
    ensures key in storage ==> v == Str(storage[key])
  {
    if key in storage then Str(storage[key]) else Null
  }

  /** The character of a decimal digit. */
  function DigitChar(d: nat): (c: char)
    requires d < 10
    ensures '0' <= c <= '9' && (c as int) - ('0' as int) == d
  {
    ('0' as int + d) as char
  }

  /** The decimal text of a natural number, without leading zeros. */
  function NatText(n: nat): (s: string)
    ensures |s| >= 1
    ensures forall i :: 0 <= i < |s| ==> '0' <= s[i] <= '9'
  {
    if n < 10 then [DigitChar(n)] else NatText(n / 10) + [DigitChar(n % 10)]
  }

  /** The number a string of decimal digits denotes. */
  function DigitsValue(s: string): nat
    requires forall i :: 0 <= i < |s| ==> '0' <= s[i] <= '9'
  {
    if s == [] then 0 else 10 * DigitsValue(s[..|s| - 1]) + ((s[|s| - 1] as int) - ('0' as int))
  }

  /** The decimal text of a number reads back as that number. */
  lemma {:induction false} NatTextValue(n: nat)
    ensures DigitsValue(NatText(n)) == n
  {
    if n >= 10 {
      NatTextValue(n / 10);
      var s := NatText(n);
      assert s[..|s| - 1] == NatText(n / 10);
    }
  }

  /** `String(n)` for an integer. */
  function IntText(n: int): string {
    if n < 0 then "-" + NatText(-n) else NatText(n)
  }

  /** Reading back a text written by `IntText`. */
  function IntValue(s: string): int
    requires |s| >= 1
    requires forall i :: 1 <= i < |s| ==> '0' <= s[i] <= '9'
    requires s[0] == '-' || '0' <= s[0] <= '9'
  {
    if s[0] == '-' then 0 - (DigitsValue(s[1..]) as int) else DigitsValue(s)
  }

  /** `String(n)` reads back as `n`, so the stored id keeps the number it was written from. */
  lemma IntTextValue(n: int)
    ensures var s := IntText(n);
      && |s| >= 1 && (s[0] == '-' || '0' <= s[0] <= '9')
      && (forall i :: 1 <= i < |s| ==> '0' <= s[i] <= '9')
      && IntValue(s) == n
  {
    if n < 0 {
      NatTextValue(-n);
      assert IntText(n)[1..] == NatText(-n);
    } else {
      NatTextValue(n);
    }
  }

  /** `String(v)` for the values a login response's id can be. */
  function JsString(v: JsValue): string {
    match v
    case Null => "null"
    case Num(n) => IntText(n)
    case Str(s) => s
    case Other => "[object Object]"
  }

  /** The storage after `login(token, id)`. */
  function AfterLogin(storage: map<string, string>, token: string, id: JsValue): (s: map<string, string>)
    ensures s.Keys == storage.Keys + {TokenKey, UserIdKey}
    ensures s[TokenKey] == token && s[UserIdKey] == JsString(id)
    ensures forall k :: k in storage && k != TokenKey && k != UserIdKey ==> s[k] == storage[k]
  {
    storage[TokenKey := token][UserIdKey := JsString(id)]
  }

  /** The storage after `logout()`. */
  function AfterLogout(storage: map<string, string>): (s: map<string, string>)
    ensures s.Keys == storage.Keys - {TokenKey, UserIdKey}
    ensures forall k :: k in s ==> s[k] == storage[k]
  {
    storage - {TokenKey, UserIdKey}
  }

  /** Logging out twice is logging out once. */
  lemma LogoutIdempotent(storage: map<string, string>)
    ensures AfterLogout(AfterLogout(storage)) == AfterLogout(storage)
  {
  }

  /** A login followed by a logout leaves no session key and every other key as it was. */
  lemma LoginThenLogout(storage: map<string, string>, token: string, id: JsValue)
    ensures var s := AfterLogout(AfterLogin(storage, token, id));
      && TokenKey !in s && UserIdKey !in s
      && s == AfterLogout(storage)
  {
    var s := AfterLogout(AfterLogin(storage, token, id));
    assert s.Keys == AfterLogout(storage).Keys;
  }

  /**
   * A reload after `login(token, n)` finds the token and the text of `n`: the id comes back as
   * a string that reads as `n`, not as the number the state held before the reload.
   */
  lemma ReloadAfterLogin(storage: map<string, string>, token: string, n: int)
    ensures var s := AfterLogin(storage, token, Num(n));
      && Stored(s, TokenKey) == Str(token)
      && Stored(s, UserIdKey) == Str(IntText(n))
      && !StrictEquals(Stored(s, UserIdKey), Num(n))
    ensures IntValue(IntText(n)) == n
  {
    IntTextValue(n);
  }

  /** The session's two state cells and the storage they mirror. */
  class AuthSession {
    var storage: map<string, string>
    var authToken: JsValue
    var userId: JsValue

    /** Both cells start from what storage holds. */
    constructor (saved: map<string, string>)
      ensures storage == saved
      ensures authToken == Stored(saved, TokenKey) && userId == Stored(saved, UserIdKey)
    {
      storage := saved;
      authToken := Stored(saved, TokenKey);
      userId := Stored(saved, UserIdKey);
    }

    /** `login`: both keys written (the id as text) and both cells set (the id as given). */
    method Login(token: string, id: JsValue)
      modifies this
      ensures storage == AfterLogin(old(storage), token, id)
      ensures authToken == Str(token) && userId == id
    {
      storage := AfterLogin(storage, token, id);
      authToken := Str(token);
      userId := id;
    }

    /** `logout`: both keys removed and both cells cleared. */
    method Logout()
      modifies this
      ensures storage == AfterLogout(old(storage))
      ensures authToken == Null && userId == Null
      ensures Stored(storage, TokenKey) == Null && Stored(storage, UserIdKey) == Null
    {
      storage := AfterLogout(storage);
      authToken := Null;
      userId := Null;
    }
  }
}
