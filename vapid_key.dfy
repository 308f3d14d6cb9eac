/**
 * The conversion of the server's public push key (URL-safe base64, unpadded) into the bytes
 * the browser's push subscription wants: pad to a multiple of four characters with "=",
 * map the URL-safe alphabet of section 5 of RFC 4648 to the standard one of section 4,
 * decode with the browser's `atob`, and take each decoded character's code as a byte.
 *
 * `atob` is a parameter: it gives the decoded text, or None where the browser throws.
 * The client has this conversion twice, once as a chain of string operations and once
 * as a loop filling a byte array; both are modelled and shown to agree.
 */
module VapidKey {
  import opened Wrappers

  newtype Byte = x: int | 0 <= x < 256

  /** `"=".repeat((4 - len % 4) % 4)`. */
  function Padding(s: string): (pad: string)
    ensures |pad| <= 3
    ensures (|s| + |pad|) % 4 == 0
    ensures forall i :: 0 <= i < |pad| ==> pad[i] == '='
  {
    seq((4 - |s| % 4) % 4, _ => '=')
  }

  /** One character of the section 5 alphabet in the section 4 alphabet. */
  function ToStandardChar(c: char): char {
    if c == '-' then '+' else if c == '_' then '/' else c
  }

  /** `.replace(/-/g, "+").replace(/_/g, "/")`. */
  function ToStandard(s: string): (r: string)
    ensures |r| == |s|
    ensures forall i :: 0 <= i < |s| ==> r[i] == ToStandardChar(s[i])
    ensures forall i :: 0 <= i < |r| ==> r[i] != '-' && r[i] != '_'
    ensures forall i :: 0 <= i < |s| && s[i] != '-' && s[i] != '_' ==> r[i] == s[i]
  {
    seq(|s|, i requires 0 <= i < |s| => ToStandardChar(s[i]))
  }

  /** The other direction, section 4 to section 5. */
  function ToUrlSafe(s: string): (r: string)
    ensures |r| == |s|
  {
    seq(|s|, i requires 0 <= i < |s| => if s[i] == '+' then '-' else if s[i] == '/' then '_' else s[i])
  }

  /** A URL-safe text uses neither "+" nor "/". */
  predicate UrlSafe(s: string) {
    forall i :: 0 <= i < |s| ==> s[i] != '+' && s[i] != '/'
  }

  /** On a URL-safe text, the alphabet map is undone by its inverse: nothing is lost. */
  lemma ToStandardRoundTrip(s: string)
    requires UrlSafe(s)
    ensures ToUrlSafe(ToStandard(s)) == s
  {
    var r := ToUrlSafe(ToStandard(s));
    forall i | 0 <= i < |s| ensures r[i] == s[i] {
      assert ToStandard(s)[i] == ToStandardChar(s[i]);
    }
  }

  /** The text handed to `atob`: padded, then in the standard alphabet. */
  function Standardise(key: string): (b64: string)
    ensures |b64| % 4 == 0 && |key| <= |b64| <= |key| + 3
    ensures forall i :: 0 <= i < |key| ==> b64[i] == ToStandardChar(key[i])
    ensures forall i :: |key| <= i < |b64| ==> b64[i] == '='
    ensures forall i :: 0 <= i < |b64| ==> b64[i] != '-' && b64[i] != '_'
  {
    ToStandard(key + Padding(key))
  }

  /** `charCodeAt` stored into a `Uint8Array` element: the code modulo 256. */
  function ByteOf(c: char): Byte {
    ((c as int) % 256) as Byte
  }

  /** `[...rawData].map((char) => char.charCodeAt(0))` gathered into a `Uint8Array`. */
  function CharCodes(raw: string): (bytes: seq<Byte>)
    ensures |bytes| == |raw|
    ensures forall i :: 0 <= i < |raw| ==> bytes[i] == ByteOf(raw[i]) && bytes[i] as int == (raw[i] as int) % 256
  {
    seq(|raw|, i requires 0 <= i < |raw| => ByteOf(raw[i]))
  }

  /** The chain version: the bytes of the decoded key, or None where `atob` throws. */
  function KeyBytes(key: string, atob: string -> Option<string>): (r: Option<seq<Byte>>)
    ensures r.None? <==> atob(Standardise(key)).None?
    ensures r.Some? ==> |r.value| == |atob(Standardise(key)).value|
  {
    match atob(Standardise(key))
    case None => None
    case Some(raw) => Some(CharCodes(raw))
  }

  /**
   * The loop version: a fresh byte array as long as the decoded text, filled index by
   * index; it holds exactly the bytes the chain version computes.
   */
  method KeyArray(key: string, atob: string -> Option<string>) returns (out: Option<array<Byte>>)
    ensures out.None? <==> KeyBytes(key, atob).None?
    ensures out.Some? ==> fresh(out.value) && out.value[..] == KeyBytes(key, atob).value
  {
    var decoded := atob(Standardise(key));
    if decoded.None? {
      return None;
    }
    var raw := decoded.value;
    var output := new Byte[|raw|];
    var i := 0;
    while i < |raw|
      invariant 0 <= i <= |raw|
      invariant forall j :: 0 <= j < i ==> output[j] == ByteOf(raw[j])
    {
      output[i] := ByteOf(raw[i]);
      i := i + 1;
    }
    return Some(output);
  }
}
