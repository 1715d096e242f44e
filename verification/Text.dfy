/** Byte strings as the state layer orders, cuts and prints them. */
module Text {
  import opened Wrappers
  import opened Ordered

  /** Lexical order on keys and ids, byte by byte. */
  predicate Less(a: string, b: string) {
    if b == "" then false
    else if a == "" then true
    else a[0] < b[0] || (a[0] == b[0] && Less(a[1..], b[1..]))
  }

  lemma {:induction false} LessTrichotomy(a: string, b: string)
    ensures a != b ==> Less(a, b) || Less(b, a)
    ensures !(Less(a, b) && Less(b, a)) && (a == b ==> !Less(a, b))
  {
    if a != "" && b != "" {
      LessTrichotomy(a[1..], b[1..]);
      assert a == [a[0]] + a[1..] && b == [b[0]] + b[1..];
    }
  }

  /** The first byte that differs is the i-th, and a's comes first. */
  predicate ComesFirstAt(a: string, b: string, i: nat) { i < |a| && i < |b| && a[..i] == b[..i] && a[i] < b[i] }

  lemma OneByteLess(a: string, b: string, i: nat)
    requires a != "" && b != ""
    ensures ComesFirstAt(a, b, 0) <==> a[0] < b[0]
    ensures ComesFirstAt(a, b, i + 1) <==> a[0] == b[0] && ComesFirstAt(a[1..], b[1..], i)
  {
    if i + 1 <= |a| && i + 1 <= |b| {
      assert a[..i + 1] == [a[0]] + a[1..][..i] && b[..i + 1] == [b[0]] + b[1..][..i];
    }
  }

  /** Less puts a proper prefix first, and decides otherwise by the first byte that differs. */
  lemma {:induction false} LessIff(a: string, b: string)
    ensures Less(a, b) <==> a < b || exists i: nat :: ComesFirstAt(a, b, i)
  {
    if a != "" && b != "" {
      hide ComesFirstAt;
      LessIff(a[1..], b[1..]);
      forall i: nat ensures ComesFirstAt(a, b, i + 1) <==> a[0] == b[0] && ComesFirstAt(a[1..], b[1..], i) {
        OneByteLess(a, b, i);
      }
      OneByteLess(a, b, 0);
      assert forall i: nat :: i > 0 ==> (ComesFirstAt(a, b, i) <==> a[0] == b[0] && ComesFirstAt(a[1..], b[1..], i - 1));
      assert a == [a[0]] + a[1..] && b == [b[0]] + b[1..];
    }
  }

  lemma {:induction false} LessTransitive(a: string, b: string, c: string)
    requires Less(a, b) && Less(b, c)
    ensures Less(a, c)
  {
    if a != "" {
      if a[0] == b[0] == c[0] {
        LessTransitive(a[1..], b[1..], c[1..]);
      }
    }
  }

  /** The order of every listing: strict, and total on any set of keys. */
  lemma LessIsOrder(s: set<string>)
    ensures StrictOrder(Less) && ConnectedOn(s, Less)
  {
    forall x ensures !Less(x, x) { LessTrichotomy(x, x); }
    forall x, y, z | Less(x, y) && Less(y, z) ensures Less(x, z) { LessTransitive(x, y, z); }
    forall x, y | x in s && y in s && x != y ensures Less(x, y) || Less(y, x) {
      LessTrichotomy(x, y);
    }
  }

  /** The one ascending list of a set of keys. */
  ghost function Listing(s: set<string>): (list: seq<string>)
    ensures Lists(list, s, Less)
    ensures forall k :: k in list <==> k in s
  {
    LessIsOrder(s);
    var list := SortedOf(s, Less);
    assert forall k :: k in list <==> k in Elements(list);
    list
  }

  lemma ListingIs(list: seq<string>, s: set<string>)
    requires Lists(list, s, Less)
    ensures list == Listing(s)
  {
    LessIsOrder(s);
    ListsUnique(list, Listing(s), s, Less);
  }

  /** sort.Strings over the keys of a map. */
  method SortStrings(s: set<string>) returns (out: seq<string>)
    ensures out == Listing(s)
  {
    LessIsOrder(s);
    out := SortedList(s, Less);
    ListingIs(out, s);
  }

  /** Passing a sorted listing through a test gives the sorted listing of what passes. */
  lemma FilterListing(s: set<string>, keep: string -> bool)
    ensures Filter(Listing(s), keep) == Listing(set k | k in s && keep(k))
  {
    var out := Filter(Listing(s), keep);
    FilterAscends(Listing(s), keep, Less);
    assert Elements(out) == set k | k in s && keep(k);
    ListingIs(out, set k | k in s && keep(k));
  }

  lemma LessStep(x: string, y: string)
    requires x != "" && y != ""
    ensures Less(x, y) <==> x[0] < y[0] || (x[0] == y[0] && Less(x[1..], y[1..]))
  {
  }

  /** A common prefix does not affect the order. */
  lemma {:induction false} LessAfterPrefix(p: string, a: string, b: string)
    ensures Less(p + a, p + b) <==> Less(a, b)
  {
    hide Less;
    if p == "" {
      assert p + a == a && p + b == b;
    } else {
      LessAfterPrefix(p[1..], a, b);
      LessStep(p + a, p + b);
      assert (p + a)[1..] == p[1..] + a && (p + b)[1..] == p[1..] + b;
    }
  }

  /** Between strings of one length the order is decided before anything appended to them. */
  lemma {:induction false} LessExtends(a: string, b: string, x: string, y: string)
    requires |a| == |b| && Less(a, b)
    ensures Less(a + x, b + y)
  {
    if a[0] == b[0] {
      LessExtends(a[1..], b[1..], x, y);
    }
    assert (a + x)[1..] == a[1..] + x && (b + y)[1..] == b[1..] + y;
  }

  /** strings.Cut: the text around the first separator. */
  function Cut(s: string, sep: char): (r: Option<(string, string)>)
    ensures r.None? <==> sep !in s
    ensures r.Some? ==> s == r.value.0 + [sep] + r.value.1 && sep !in r.value.0
  {
    if s == "" then None
    else if s[0] == sep then Some(("", s[1..]))
    else match Cut(s[1..], sep)
      case None => None
      case Some((before, after)) => Some(([s[0]] + before, after))
  }

  /** Cutting undoes gluing, when the separator is not in the first piece. */
  lemma {:induction false} CutGlue(a: string, b: string, sep: char)
    requires sep !in a
    ensures Cut(a + [sep] + b, sep) == Some((a, b))
  {
    var s := a + [sep] + b;
    if a == "" {
      assert s[1..] == b;
    } else {
      CutGlue(a[1..], b, sep);
      assert s[1..] == a[1..] + [sep] + b && a == [a[0]] + a[1..];
    }
  }

  /** The last path segment, after the last slash. */
  function LastSegment(key: string): (r: string)
    ensures '/' !in r && |r| <= |key| && r == key[|key| - |r|..]
    ensures '/' in key ==> |r| < |key| && key[|key| - |r| - 1] == '/'
    ensures '/' !in key ==> r == key
  {
    if key == "" || key[|key| - 1] == '/' then ""
    else LastSegment(key[..|key| - 1]) + [key[|key| - 1]]
  }

  /** path.Dir of a clean key: everything before the last slash. */
  function Dir(key: string): string {
    var n := |key| - |LastSegment(key)|;
    if n == 0 then "." else key[..n - 1]
  }

  /** A key splits back into the folder and the name it was built from. */
  lemma {:induction false} SplitLast(folder: string, name: string)
    requires '/' !in name
    ensures LastSegment(folder + "/" + name) == name && Dir(folder + "/" + name) == folder
  {
    var key := folder + "/" + name;
    if name != "" {
      var init := name[..|name| - 1];
      SplitLast(folder, init);
      assert key[..|key| - 1] == folder + "/" + init && key[|key| - 1] == name[|name| - 1];
      assert name == init + [name[|name| - 1]];
    }
    assert key[..|folder|] == folder;
  }

  /** Whole-segment prefix matching: "a/b" covers "a/b/c" and never "a/bc". */
  predicate HasSegmentPrefix(key: string, prefix: string) {
    prefix == "" ||
    var p := if prefix[|prefix| - 1] == '/' then prefix[..|prefix| - 1] else prefix;
    key == p || p + "/" <= key
  }

  /** Strictly below a folder. */
  predicate Under(p: string, folder: string) { folder + "/" <= p }

  predicate AtOrUnder(p: string, folder: string) { p == folder || Under(p, folder) }

  lemma UnderTransitive(p: string, q: string, d: string)
    requires Under(p, q) && AtOrUnder(q, d)
    ensures Under(p, d)
  {
    if q != d {
      assert q[..|d| + 1] == d + "/" && p[..|q|] == q;
      assert p[..|d| + 1] == q[..|d| + 1];
    }
  }

  lemma NoSlashInName(p: string)
    ensures forall i :: |p| - |LastSegment(p)| <= i < |p| ==> p[i] != '/'
  {
    forall i | |p| - |LastSegment(p)| <= i < |p| ensures p[i] != '/' {
      assert p[i] == LastSegment(p)[i - (|p| - |LastSegment(p)|)];
    }
  }

  /** The folder of an entry below d is d or is itself below d. */
  lemma DirStaysUnder(p: string, d: string)
    requires Under(p, d)
    ensures AtOrUnder(Dir(p), d) && |Dir(p)| < |p| && (d != "." ==> Dir(p) != ".")
  {
    var cut := |p| - |LastSegment(p)|;
    assert p[|d|] == '/';
    NoSlashInName(p);
    var dir := Dir(p);
    assert dir == p[..cut - 1];
    if |dir| > |d| {
      assert dir[..|d| + 1] == d + "/";
      assert dir[|d|] == '/';
      assert dir != "." || |d| > 0;
    } else {
      assert dir == d;
    }
  }

  lemma PathOfChild(c: string, d: string)
    requires Dir(c) == d && d != "."
    ensures c == d + "/" + LastSegment(c)
  {
  }

  // ---- fixed-width decimal stamps ----

  function Pow10(n: nat): (r: nat)
    ensures r >= 1
  {
    if n == 0 then 1 else 10 * Pow10(n - 1)
  }

  predicate IsDigit(c: char) { '0' <= c <= '9' }

  predicate AllDigits(s: string) { forall i :: 0 <= i < |s| ==> IsDigit(s[i]) }

  function DigitChar(d: nat): (c: char)
    requires d < 10
    ensures IsDigit(c) && c as int - '0' as int == d
  {
    ('0' as int + d) as char
  }

  /** The low `width` decimal digits of n, zero-padded. */
  function Padded(n: nat, width: nat): (s: string)
    ensures |s| == width && AllDigits(s)
  {
    if width == 0 then "" else Padded(n / 10, width - 1) + [DigitChar(n % 10)]
  }

  /** The number a digit string denotes. */
  function Value(s: string): (n: nat)
    requires AllDigits(s)
  {
    if s == "" then 0 else 10 * Value(s[..|s| - 1]) + (s[|s| - 1] as int - '0' as int)
  }

  lemma {:induction false} ValueOfPadded(n: nat, width: nat)
    requires n < Pow10(width)
    ensures Value(Padded(n, width)) == n
  {
    if width > 0 {
      ValueOfPadded(n / 10, width - 1);
      var s := Padded(n, width);
      assert s[..|s| - 1] == Padded(n / 10, width - 1);
    }
  }

  /** Fixed width makes lexical order numeric order. */
  lemma {:induction false} PaddedOrder(m: nat, n: nat, width: nat)
    requires m < n < Pow10(width)
    ensures Less(Padded(m, width), Padded(n, width))
  {
    var a, b := Padded(m / 10, width - 1), Padded(n / 10, width - 1);
    if m / 10 < n / 10 {
      PaddedOrder(m / 10, n / 10, width - 1);
      LessExtends(a, b, [DigitChar(m % 10)], [DigitChar(n % 10)]);
    } else {
      assert m / 10 == n / 10 && m % 10 < n % 10;
      LessAfterPrefix(a, [DigitChar(m % 10)], [DigitChar(n % 10)]);
    }
  }

  const MIN_INT64: int := -0x8000_0000_0000_0000
  const MAX_INT64: int := 0x7fff_ffff_ffff_ffff

  /** Go's 64-bit signed integer. */
  type int64 = x: int | MIN_INT64 <= x <= MAX_INT64

  /** Two's-complement wrap-around of a 64-bit sum. */
  function Wrap64(x: int): (r: int64)
    ensures MIN_INT64 <= x <= MAX_INT64 ==> r == x
  {
    (x - MIN_INT64) % 0x1_0000_0000_0000_0000 + MIN_INT64
  }

  /** Width of a printed stamp. */
  const STAMP_WIDTH: nat := 19

  /** fmt.Sprintf("%019d"): a negative number spends one column on its sign, and grows to twenty
      columns when its digits alone need nineteen. */
  function Stamp(n: int64): (s: string)
    ensures n >= 0 ==> s == Padded(n, STAMP_WIDTH)
    ensures n < 0 ==> |s| in {19, 20} && s[0] == '-'
  {
    if n >= 0 then Padded(n, STAMP_WIDTH)
    else
      var magnitude: int := 0 - n as int;
      "-" + Padded(magnitude, if magnitude < 1_000_000_000_000_000_000 then STAMP_WIDTH - 1 else STAMP_WIDTH)
  }

  /** strconv.ParseInt(s, 10, 64): an optional sign, at least one digit, and a value in range. */
  function ParseInt64(s: string): (r: Option<int64>)
  {
    var signed := s != "" && (s[0] == '-' || s[0] == '+');
    var digits := if signed then s[1..] else s;
    if digits == "" || !AllDigits(digits) then None
    else
      var magnitude: int := Value(digits);
      var v := if signed && s[0] == '-' then 0 - magnitude else magnitude;
      if MIN_INT64 <= v <= MAX_INT64 then Some(v) else None
  }

  lemma PowersOfTen()
    ensures Pow10(18) == 1_000_000_000_000_000_000 && Pow10(19) == 10_000_000_000_000_000_000
  {
    assert Pow10(9) == 1_000_000_000;
    assert Pow10(14) == 100_000 * Pow10(9);
    assert Pow10(18) == 10_000 * Pow10(14);
  }

  /** Reading a printed stamp back, sign and all. */
  lemma ParseStamp(n: int64)
    ensures ParseInt64(Stamp(n)) == Some(n) && '/' !in Stamp(n)
  {
    hide Padded, Value, Pow10;
    PowersOfTen();
    if n >= 0 {
      ValueOfPadded(n, STAMP_WIDTH);
    } else {
      var width := if 0 - n < 1_000_000_000_000_000_000 then STAMP_WIDTH - 1 else STAMP_WIDTH;
      ValueOfPadded(0 - n, width);
      assert Stamp(n)[1..] == Padded(0 - n, width);
    }
  }

  /** Printed stamps sort as the numbers they denote. */
  lemma StampOrder(m: int64, n: int64)
    requires 0 <= m < n
    ensures Less(Stamp(m), Stamp(n))
  {
    hide Padded, Value, Pow10;
    PowersOfTen();
    PaddedOrder(m, n, STAMP_WIDTH);
  }
}
