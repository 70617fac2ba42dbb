/**
 * The string side of path management (diff.rs): escaping an object key into
 * a JSON Pointer segment as section 3 of RFC 6901 prescribes, the decimal
 * rendering of an array index, and the position `pop` truncates to.
 */
module Paths {
  import opened Wrappers

  /** The escaped form of one key character: `~` is `~0`, `/` is `~1`, the rest stand for themselves. */
  function EscapeChar(c: char): string {
    if c == '~' then "~0" else if c == '/' then "~1" else [c]
  }

  /** The escaped form of a key, character by character; it never contains a separator. */
  function Escape(key: string): (r: string)
    ensures '/' !in r
    ensures |key| <= |r|
  {
    if key == [] then [] else EscapeChar(key[0]) + Escape(key[1..])
  }

  lemma {:induction false} EscapeConcat(a: string, b: string)
    ensures Escape(a + b) == Escape(a) + Escape(b)
  {
    if a == [] {
      assert a + b == b;
    } else {
      assert (a + b)[0] == a[0] && (a + b)[1..] == a[1..] + b;
      EscapeConcat(a[1..], b);
    }
  }

  /** A key with neither `~` nor `/` is its own segment. */
  lemma {:induction false} EscapePlain(key: string)
    requires '~' !in key && '/' !in key
    ensures Escape(key) == key
  {
    if key != [] {
      assert key == [key[0]] + key[1..];
      EscapePlain(key[1..]);
    }
  }

  lemma EscapePrefixStep(key: string, i: nat)
    requires i < |key|
    ensures Escape(key[..i + 1]) == Escape(key[..i]) + EscapeChar(key[i])
  {
    assert key[..i + 1] == key[..i] + [key[i]];
    EscapeConcat(key[..i], [key[i]]);
  }

  /** `append_path`: extend `path` with the escaped `key`, one character at a time. */
  method AppendPath(path: string, key: string) returns (r: string)
    ensures r == path + Escape(key)
  {
    r := path;
    for i := 0 to |key|
      invariant r == path + Escape(key[..i])
    {
      var ch := key[i];
      EscapePrefixStep(key, i);
      assert path + Escape(key[..i + 1]) == r + EscapeChar(ch);
      if ch == '~' {
        r := r + "~0";
      } else if ch == '/' {
        r := r + "~1";
      } else {
        r := r + [ch];
      }
    }
    assert key[..|key|] == key;
  }

  function Cons(c: char, rest: Option<string>): Option<string> {
    match rest
    case None => None
    case Some(s) => Some([c] + s)
  }

  /**
   * Decoding a reference token as section 4 of RFC 6901 prescribes: `~1`
   * stands for `/`, `~0` for `~`, and any other use of `~` is an error.
   */
  function Unescape(segment: string): Option<string> {
    if segment == [] then Some([])
    else if segment[0] != '~' then Cons(segment[0], Unescape(segment[1..]))
    else if |segment| >= 2 && segment[1] == '0' then Cons('~', Unescape(segment[2..]))
    else if |segment| >= 2 && segment[1] == '1' then Cons('/', Unescape(segment[2..]))
    else None
  }

  /** Unescaping the escaped key recovers the key. */
  lemma {:induction false} UnescapeEscape(key: string)
    ensures Unescape(Escape(key)) == Some(key)
  {
    if key != [] {
      var c, rest := key[0], key[1..];
      UnescapeEscape(rest);
      var e := Escape(key);
      assert e == EscapeChar(c) + Escape(rest);
      if c == '~' || c == '/' {
        assert e[2..] == Escape(rest);
      } else {
        assert e[1..] == Escape(rest);
      }
      assert [c] + rest == key;
    }
  }

  /** Distinct keys give distinct segments. */
  lemma EscapeInjective(a: string, b: string)
    requires Escape(a) == Escape(b)
    ensures a == b
  {
    UnescapeEscape(a);
    UnescapeEscape(b);
  }

  function DigitChar(d: nat): (c: char)
    requires d < 10
    ensures '0' <= c <= '9'
    ensures c == '0' <==> d == 0
  {
    "0123456789"[d]
  }

  /**
   * The decimal rendering `write!("{}", n)` produces for an index: digits
   * only, and no leading zero (a lone "0" is zero itself), as section 4 of
   * RFC 6901 requires of an array index.
   */
  function DecimalString(n: nat): (r: string)
    ensures |r| >= 1
    ensures forall i :: 0 <= i < |r| ==> '0' <= r[i] <= '9'
    ensures r[0] == '0' <==> n == 0
    ensures |r| > 1 ==> r[0] != '0'
  {
    if n < 10 then [DigitChar(n)] else DecimalString(n / 10) + [DigitChar(n % 10)]
  }

  /** Reading a string of decimal digits as a number. */
  function ParseDecimal(s: string): nat
    requires forall i :: 0 <= i < |s| ==> '0' <= s[i] <= '9'
  {
    if s == [] then 0
    else ParseDecimal(s[..|s| - 1]) * 10 + (s[|s| - 1] as int - '0' as int)
  }

  /** The rendering is faithful: reading it back gives the index. */
  lemma {:induction false} ParseDecimalString(n: nat)
    ensures ParseDecimal(DecimalString(n)) == n
  {
    if n >= 10 {
      var s := DecimalString(n);
      assert s[..|s| - 1] == DecimalString(n / 10);
      ParseDecimalString(n / 10);
    }
  }

  /** `rfind('/')`: the position of the last separator, if there is one. */
  function LastSlash(s: string): (r: Option<nat>)
    ensures r.Some? ==> r.value < |s| && s[r.value] == '/'
    ensures r.Some? ==> forall j :: r.value < j < |s| ==> s[j] != '/'
    ensures r.None? ==> forall j :: 0 <= j < |s| ==> s[j] != '/'
  {
    if s == [] then None
    else if s[|s| - 1] == '/' then Some(|s| - 1)
    else LastSlash(s[..|s| - 1])
  }

  /** Where `pop` truncates a path: the last separator, or 0 when there is none. */
  function PopPosition(path: string): (pos: nat)
    ensures pos <= |path|
  {
    match LastSlash(path)
    case None => 0
    case Some(i) => i
  }

  /** Truncating at the last separator undoes appending a separator and a segment without one. */
  lemma PopAfterPush(path: string, segment: string)
    requires '/' !in segment
    ensures PopPosition(path + "/" + segment) == |path|
    ensures (path + "/" + segment)[..PopPosition(path + "/" + segment)] == path
  {
    var s := path + "/" + segment;
    assert s[|path|] == '/';
    forall j | |path| < j < |s| ensures s[j] != '/' {
      assert s[j] == segment[j - |path| - 1];
    }
    assert s[..|path|] == path;
  }
}
