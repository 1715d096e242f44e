/** Key segments of the state store (internal/state/state.go): every id is percent-escaped to a
    safe alphabet, reversibly, so that a listing can be turned back into ids. */
module Segments {
  import opened Wrappers
  import opened Ordered
  import opened Text

  /** A Go string is a sequence of bytes, written here as chars below 256. The functions below are
      total on strings: a char that is no byte is passed through unchanged. */
  predicate IsBytes(s: string) { forall i :: 0 <= i < |s| ==> s[i] as int < 256 }

  predicate IsSafeByte(c: char) {
    'a' <= c <= 'z' || 'A' <= c <= 'Z' || '0' <= c <= '9' || c == '.' || c == '_' || c == '-'
  }

  function HexDigit(d: nat): (c: char)
    requires d < 16
  {
    if d < 10 then ('0' as int + d) as char else ('A' as int + d - 10) as char
  }

  /** hex.Decode reads either case. */
  function HexValue(c: char): (d: Option<nat>)
    ensures d.Some? ==> d.value < 16
  {
    if '0' <= c <= '9' then Some(c as int - '0' as int)
    else if 'A' <= c <= 'F' then Some(c as int - 'A' as int + 10)
    else if 'a' <= c <= 'f' then Some(c as int - 'a' as int + 10)
    else None
  }

  function EscapedByte(c: char): (e: string) {
    if IsSafeByte(c) || c as int >= 256 then [c] else ['%', HexDigit(c as int / 16), HexDigit(c as int % 16)]
  }

  /** Letters and digits of ASCII, the hyphen, the dot and the underscore, by code. */
  predicate Unescapable(code: int) {
    97 <= code <= 122 || 65 <= code <= 90 || 48 <= code <= 57 || code == 45 || code == 46 || code == 95
  }

  /** A byte outside that alphabet becomes a percent sign and its value in two upper-case hex digits. */
  predicate PercentForm(e: string, code: int) {
    && |e| == 3 && e[0] == '%' && e[1] in "0123456789ABCDEF" && e[2] in "0123456789ABCDEF"
    && HexValue(e[1]).Some? && HexValue(e[2]).Some? && 16 * HexValue(e[1]).value + HexValue(e[2]).value == code
  }

  lemma UpperHex(d: nat)
    requires d < 16
    ensures HexDigit(d) in "0123456789ABCDEF" && HexValue(HexDigit(d)) == Some(d)
  {
    assert HexDigit(d) == "0123456789ABCDEF"[d];
  }

  lemma EscapedByteIs(c: char)
    requires c as int < 256
    ensures Unescapable(c as int) ==> EscapedByte(c) == [c]
    ensures !Unescapable(c as int) ==> PercentForm(EscapedByte(c), c as int)
  {
    if !Unescapable(c as int) {
      UpperHex(c as int / 16);
      UpperHex(c as int % 16);
    }
  }

  function EscapedBytes(s: string): string {
    if s == "" then "" else EscapedByte(s[0]) + EscapedBytes(s[1..])
  }

  /** The escaped form of a segment; "." and ".." are escaped wholesale. */
  function Escaped(s: string): string {
    if s == "." then "%2E" else if s == ".." then "%2E%2E" else EscapedBytes(s)
  }

  /** What a percent-decoder reads, taking exactly two hex digits per escape. */
  function Decoded(s: string): (r: Option<string>)
    decreases |s|
  {
    if s == "" then Some("")
    else if s[0] != '%' then After([s[0]], Decoded(s[1..]))
    else if |s| < 3 then None
    else match (HexValue(s[1]), HexValue(s[2]))
      case (Some(hi), Some(lo)) => After([(16 * hi + lo) as char], Decoded(s[3..]))
      case _ => None
  }

  /** Text read before the rest, if the rest could be read. */
  function After(b: string, rest: Option<string>): Option<string> {
    if rest == None then None else Some(b + rest.value)
  }

  /** The inverse of Escaped, refusing every spelling Escaped does not write. */
  function Unescaped(s: string): Option<string> {
    match Decoded(s)
    case None => None
    case Some(out) => if Escaped(out) == s then Some(out) else None
  }

  lemma AfterAfter(a: string, b: string, rest: Option<string>)
    ensures After(a, After(b, rest)) == After(a + b, rest) && After("", rest) == rest
  {
    if rest.Some? {
      assert a + (b + rest.value) == a + b + rest.value && "" + rest.value == rest.value;
    }
  }

  predicate IsEscapeChar(c: char) { IsSafeByte(c) || c == '%' }

  lemma {:induction false} EscapedBytesShape(s: string)
    ensures IsBytes(s) ==> forall i :: 0 <= i < |EscapedBytes(s)| ==> IsEscapeChar(EscapedBytes(s)[i])
    ensures '/' !in EscapedBytes(s) && |EscapedBytes(s)| >= |s|
    ensures EscapedBytes(s) in {".", ".."} ==> EscapedBytes(s) == s
  {
    if s != "" {
      EscapedBytesShape(s[1..]);
      EscapedByteShape(s[0]);
      var e, rest := EscapedByte(s[0]), EscapedBytes(s[1..]);
      hide EscapedByte;
      assert EscapedBytes(s) == e + rest;
      if EscapedBytes(s) in {".", ".."} {
        assert (e + rest)[0] == e[0];
        assert EscapedBytes(s)[1..] == rest;
        assert s == [s[0]] + s[1..];
      }
    }
  }

  lemma EscapedByteShape(c: char)
    ensures c as int < 256 ==> forall i :: 0 <= i < |EscapedByte(c)| ==> IsEscapeChar(EscapedByte(c)[i])
    ensures '/' !in EscapedByte(c) && |EscapedByte(c)| >= 1
    ensures EscapedByte(c)[0] == '.' ==> EscapedByte(c) == [c]
  {
  }

  /** Nothing an escaped id contains can act as a path: only safe bytes and escapes, no separator,
      no "." and no "..", and only the empty id is written as an empty segment. */
  lemma EscapedIsSafe(s: string)
    ensures IsBytes(s) ==> forall i :: 0 <= i < |Escaped(s)| ==> IsEscapeChar(Escaped(s)[i])
    ensures '/' !in Escaped(s) && Escaped(s) != "." && Escaped(s) != ".."
    ensures Escaped(s) == "" <==> s == ""
  {
    EscapedBytesShape(s);
  }

  /** A segment is stored under its own name exactly when it is all plain characters and no dot segment. */
  lemma {:induction false} StaysAsItIs(s: string)
    requires IsBytes(s)
    ensures EscapedBytes(s) == s <==> forall i :: 0 <= i < |s| ==> Unescapable(s[i] as int)
    ensures Escaped(s) == s <==> s != "." && s != ".." && forall i :: 0 <= i < |s| ==> Unescapable(s[i] as int)
  {
    hide IsSafeByte, Unescapable;
    if s != "" {
      var e, rest := EscapedByte(s[0]), s[1..];
      EscapedByteIs(s[0]);
      StaysAsItIs(rest);
      EscapedBytesShape(rest);
      assert s == [s[0]] + rest && EscapedBytes(s) == e + EscapedBytes(rest);
      if Unescapable(s[0] as int) {
        assert EscapedBytes(s) == s <==> EscapedBytes(rest) == rest by {
          assert EscapedBytes(s)[1..] == EscapedBytes(rest);
        }
        if forall i :: 0 <= i < |rest| ==> Unescapable(rest[i] as int) {
          assert forall i :: 0 < i < |s| ==> s[i] == rest[i - 1];
        }
      } else {
        assert |EscapedBytes(s)| > |s|;
      }
    }
  }

  /** Decoding one escaped byte and then the rest. */
  lemma DecodeEscapedByte(c: char, rest: string)
    ensures Decoded(EscapedByte(c) + rest) == After([c], Decoded(rest))
  {
    var e := EscapedByte(c);
    var all := e + rest;
    if |e| == 1 {
      assert all[1..] == rest;
    } else {
      assert HexValue(e[1]) == Some(c as int / 16) && HexValue(e[2]) == Some(c as int % 16);
      assert all[0] == '%' && all[1] == e[1] && all[2] == e[2] && all[3..] == rest;
    }
  }

  lemma {:induction false} DecodeEscapedBytes(s: string)
    ensures Decoded(EscapedBytes(s)) == Some(s)
  {
    if s != "" {
      DecodeEscapedBytes(s[1..]);
      DecodeEscapedByte(s[0], EscapedBytes(s[1..]));
      assert s == [s[0]] + s[1..];
    }
  }

  /** Escaping is reversible, and the reverse accepts exactly the escaped forms: every record has
      one key and every key names one record. */
  lemma UnescapeIsInverse(s: string, t: string)
    ensures Unescaped(t) == Some(s) <==> Escaped(s) == t
  {
    DecodeEscapedBytes(s);
    if s == ".." {
      assert Decoded("%2E%2E"[3..]) == Some(".");
      assert Decoded("%2E%2E") == Some("..") by {
        assert "%2E%2E"[3..] == "%2E";
        assert "%2E"[3..] == "";
      }
    }
    if s == "." {
      assert "%2E"[3..] == "";
    }
  }

  lemma EscapedInjective(a: string, b: string)
    requires Escaped(a) == Escaped(b)
    ensures a == b
  {
    UnescapeIsInverse(a, Escaped(a));
    UnescapeIsInverse(b, Escaped(a));
  }

  /** state.Key: the escaped segments joined by slashes. */
  function Key(segments: seq<string>): string {
    if segments == [] then ""
    else if |segments| == 1 then Escaped(segments[0])
    else Escaped(segments[0]) + "/" + Key(segments[1..])
  }

  /** Keys are injective on lists of segments, with one exception: no segment at all and a single
      empty segment are both written as the empty key. */
  lemma {:induction false} KeyInjective(a: seq<string>, b: seq<string>)
    ensures Key(a) == Key(b) <==> a == b || (a in {[], [""]} && b in {[], [""]})
  {
    FirstOfKey(a);
    FirstOfKey(b);
    if Key(a) == Key(b) && a != [] && b != [] {
      EscapedInjective(a[0], b[0]);
      if |a| > 1 {
        KeyInjective(a[1..], b[1..]);
      }
      assert a == [a[0]] + a[1..] && b == [b[0]] + b[1..];
    }
    if a == [] && b != [] && Key(b) == "" {
      EscapedIsSafe(b[0]);
      assert b == [b[0]];
    }
    if b == [] && a != [] && Key(a) == "" {
      EscapedIsSafe(a[0]);
      assert a == [a[0]];
    }
  }

  /** The first slash of a key ends its first segment. */
  lemma FirstOfKey(a: seq<string>)
    ensures |a| == 1 ==> Cut(Key(a), '/') == None && Key(a) == Escaped(a[0])
    ensures |a| > 1 ==> Cut(Key(a), '/') == Some((Escaped(a[0]), Key(a[1..])))
    ensures |a| > 1 ==> Key(a) != ""
  {
    if a != [] {
      EscapedIsSafe(a[0]);
    }
    if |a| > 1 {
      CutGlue(Escaped(a[0]), Key(a[1..]), '/');
    }
  }

  // ---- the builder loops ----

  /** EscapeSegment: one pass over the bytes, appending to a builder. */
  method EscapeSegment(s: string) returns (out: string)
    ensures out == Escaped(s)
  {
    if s == "." || s == ".." {
      out := if s == "." then "%2E" else "%2E%2E";
      return;
    }
    out := "";
    for i := 0 to |s|
      invariant out + EscapedBytes(s[i..]) == EscapedBytes(s)
    {
      assert s[i..][1..] == s[i + 1..] && s[i..][0] == s[i];
      assert out + (EscapedByte(s[i]) + EscapedBytes(s[i + 1..])) == out + EscapedByte(s[i]) + EscapedBytes(s[i + 1..]);
      if IsSafeByte(s[i]) || s[i] as int >= 256 {
        out := out + [s[i]];
      } else {
        out := out + ['%', HexDigit(s[i] as int / 16), HexDigit(s[i] as int % 16)];
      }
    }
  }

  /** decodeSegment: stops at the first malformed escape. */
  method DecodeSegment(s: string) returns (out: Option<string>)
    ensures out == Decoded(s)
  {
    var b: string := "";
    var i := 0;
    assert s[0..] == s;
    AfterAfter(b, b, Decoded(s));
    while i < |s|
      invariant 0 <= i <= |s|
      invariant Decoded(s) == After(b, Decoded(s[i..]))
    {
      ghost var tail := s[i..];
      assert tail[0] == s[i];
      if s[i] != '%' {
        assert tail[1..] == s[i + 1..];
        AfterAfter(b, [s[i]], Decoded(s[i + 1..]));
        b := b + [s[i]];
        i := i + 1;
        continue;
      }
      if i + 2 >= |s| {
        return None;
      }
      assert tail[3..] == s[i + 3..] && tail[1] == s[i + 1] && tail[2] == s[i + 2];
      var hi, lo := HexValue(s[i + 1]), HexValue(s[i + 2]);
      if hi == None || lo == None {
        return None;
      }
      AfterAfter(b, [(16 * hi.value + lo.value) as char], Decoded(s[i + 3..]));
      b := b + [(16 * hi.value + lo.value) as char];
      i := i + 3;
    }
    assert s[i..] == "" && b + "" == b;
    out := Some(b);
  }

  method UnescapeSegment(s: string) returns (out: Option<string>)
    ensures out == Unescaped(s)
  {
    var decoded := DecodeSegment(s);
    if decoded == None {
      return None;
    }
    var again := EscapeSegment(decoded.value);
    out := if again == s then decoded else None;
  }

  // ---- Documents.IDs ----

  /** The first segment of what follows a collection prefix. */
  function FirstSegment(prefix: string, key: string): Option<string> {
    if prefix + "/" <= key then
      var rest := key[|prefix| + 1..];
      var cut := Cut(rest, '/');
      Some(if cut == None then rest else cut.value.0)
    else None
  }

  /** The first-level id of a key below a collection prefix, if it names one. */
  function FirstId(prefix: string, key: string): Option<string> {
    match FirstSegment(prefix, key)
    case None => None
    case Some(first) => if Unescaped(first) == Some("") then None else Unescaped(first)
  }

  lemma FirstSegmentOfKey(prefix: string, segments: seq<string>, key: string)
    requires segments != [] && key == prefix + "/" + Key(segments)
    ensures FirstSegment(prefix, key) == Some(Escaped(segments[0]))
  {
    FirstOfKey(segments);
    assert key[|prefix| + 1..] == Key(segments);
  }

  /** A document filed under (id, more...) reports id, and an empty id is not reported. */
  lemma FirstIdOfKey(prefix: string, segments: seq<string>, key: string)
    requires segments != [] && key == prefix + "/" + Key(segments)
    ensures FirstId(prefix, key) == if segments[0] == "" then None else Some(segments[0])
  {
    FirstSegmentOfKey(prefix, segments, key);
    UnescapeIsInverse(segments[0], Escaped(segments[0]));
  }

  /** The ids a listing holds. */
  function HeldIds(prefix: string, keys: seq<string>): set<string> {
    set k | k in keys && FirstId(prefix, k).Some? :: FirstId(prefix, k).value
  }

  /** Documents.IDs: the distinct first-level ids of a listing, in order, read from keys alone. */
  method Ids(prefix: string, keys: seq<string>) returns (out: seq<string>)
    ensures out == Listing(HeldIds(prefix, keys))
  {
    var seen: set<string> := {};
    for i := 0 to |keys|
      invariant seen == HeldIds(prefix, keys[..i])
    {
      HeldIdsStep(prefix, keys, i);
      var id := FirstId(prefix, keys[i]);
      if id.Some? {
        seen := seen + {id.value};
      }
    }
    assert keys[..|keys|] == keys;
    out := SortStrings(seen);
  }

  lemma HeldIdsStep(prefix: string, keys: seq<string>, i: nat)
    requires i < |keys|
    ensures var id := FirstId(prefix, keys[i]);
            HeldIds(prefix, keys[..i + 1]) == HeldIds(prefix, keys[..i]) + if id.Some? then {id.value} else {}
  {
    assert keys[..i + 1] == keys[..i] + [keys[i]];
  }
}
