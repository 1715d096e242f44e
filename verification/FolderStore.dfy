/** The state store over a folder tree (internal/cs3state/cs3state.go), proved against the flat map. */
module FolderStore {
  import opened Wrappers
  import opened Ordered
  import opened Text
  import opened FlatStore

  datatype Entry<V> = File(value: V) | Folder

  /** One listed child of a folder. */
  datatype Child = Child(path: string, isDir: bool)

  /** Every entry lives in an existing folder, or at the top. */
  ghost predicate IsTree<V>(entries: map<string, Entry<V>>) {
    forall p {:trigger Dir(p)} :: p in entries ==> Dir(p) == "." || (Dir(p) in entries && entries[Dir(p)].Folder?)
  }

  // ---- paths ----

  /** A child of d whose path leads to p reaches at least as far as any other such child. */
  lemma ReachesAsFar(p: string, a: string, b: string, d: string)
    requires Dir(a) == d && Dir(b) == d && d != "." && AtOrUnder(p, a) && AtOrUnder(p, b)
    ensures |b| <= |a|
  {
    NoSlashInName(b);
    forall i | |d| < i < |b| ensures p[i] != '/' {
      assert p[i] == b[i];
    }
    assert a == p || p[|a|] == '/';
  }

  /** A path lies at or below at most one child of a folder. */
  lemma OneChild(p: string, a: string, b: string, d: string)
    requires Dir(a) == d && Dir(b) == d && d != "." && AtOrUnder(p, a) && AtOrUnder(p, b)
    ensures a == b
  {
    ReachesAsFar(p, a, b, d);
    ReachesAsFar(p, b, a, d);
    assert a == p[..|a|] && b == p[..|b|];
  }

  /** Everything below a folder lies at or below one of its children. */
  lemma {:induction false} ChildAbove<V>(entries: map<string, Entry<V>>, p: string, d: string) returns (c: string)
    requires IsTree(entries) && p in entries && Under(p, d) && d != "."
    ensures c in entries && Dir(c) == d && AtOrUnder(p, c) && AtOrUnder(c, d) && (c != p ==> entries[c].Folder?)
    decreases |p|
  {
    DirStaysUnder(p, d);
    if Dir(p) == d {
      c := p;
    } else {
      PathOfChild(p, Dir(p));
      assert Under(p, Dir(p));
      c := ChildAbove(entries, Dir(p), d);
      UnderTransitive(p, Dir(p), c);
    }
  }

  /** The keys of the files below a folder; keys are paths without the store prefix. */
  function FilesBelow<V>(entries: map<string, Entry<V>>, prefix: string, d: string): set<string> {
    set p | p in entries && entries[p].File? && Under(p, d) && Under(p, prefix) :: p[|prefix| + 1..]
  }

  /** The keys of the files at or below any of some paths. */
  ghost function FilesAt<V>(entries: map<string, Entry<V>>, prefix: string, cs: set<string>): set<string> {
    set p, c | c in cs && p in entries && entries[p].File? && AtOrUnder(p, c) && Under(p, prefix) :: p[|prefix| + 1..]
  }

  ghost function Children<V>(entries: map<string, Entry<V>>, d: string): set<string> {
    set p | p in entries && Dir(p) == d
  }

  /** The children of a folder account for everything below it. */
  lemma ChildrenCover<V>(entries: map<string, Entry<V>>, prefix: string, d: string)
    requires IsTree(entries) && d != "." && AtOrUnder(d, prefix)
    ensures FilesAt(entries, prefix, Children(entries, d)) == FilesBelow(entries, prefix, d)
  {
    forall p | p in entries && Under(p, d)
      ensures exists c :: c in Children(entries, d) && AtOrUnder(p, c)
    {
      var c := ChildAbove(entries, p, d);
      assert c in Children(entries, d);
    }
    forall p, c | c in Children(entries, d) && p in entries && AtOrUnder(p, c)
      ensures Under(p, d) && Under(p, prefix)
    {
      BelowChild(p, c, d, prefix);
    }
  }

  lemma BelowChild(p: string, c: string, d: string, prefix: string)
    requires Dir(c) == d && d != "." && AtOrUnder(p, c) && AtOrUnder(d, prefix)
    ensures Under(p, d) && Under(p, prefix)
  {
    PathOfChild(c, d);
    if p != c {
      UnderTransitive(p, c, d);
    }
    UnderTransitive(p, d, prefix);
  }

  lemma NothingThere<V>(entries: map<string, Entry<V>>, prefix: string, d: string)
    requires IsTree(entries) && d != "." && d !in entries
    ensures FilesBelow(entries, prefix, d) == {}
  {
    forall p | p in entries && Under(p, d) ensures false {
      NothingBelow(entries, p, d);
    }
  }

  function EntriesBelow<V>(entries: map<string, Entry<V>>, d: string): set<string> {
    set p | p in entries && Under(p, d)
  }

  /** Fewer entries lie below a child than below its folder. */
  lemma ChildIsSmaller<V>(entries: map<string, Entry<V>>, d: string, c: string)
    requires c in entries && Dir(c) == d && d != "."
    ensures EntriesBelow(entries, c) < EntriesBelow(entries, d)
  {
    PathOfChild(c, d);
    forall p | p in entries && Under(p, c) ensures Under(p, d) {
      UnderTransitive(p, c, d);
    }
    assert c in EntriesBelow(entries, d) && c !in EntriesBelow(entries, c);
  }

  /** What one child contributes to a listing: everything below it, or its own key. */
  ghost function Added<V>(entries: map<string, Entry<V>>, prefix: string, c: string): set<string>
    requires c in entries && Under(c, prefix)
  {
    if entries[c].Folder? then FilesBelow(entries, prefix, c) else {c[|prefix| + 1..]}
  }

  lemma AddedIsFilesAt<V>(entries: map<string, Entry<V>>, prefix: string, c: string)
    requires IsTree(entries) && c in entries && Under(c, prefix)
    ensures FilesAt(entries, prefix, {c}) == Added(entries, prefix, c)
  {
    assert c[|prefix|] == '/';
    forall p | p in entries && Under(p, c) ensures entries[c].Folder? && Under(p, prefix) {
      NothingBelow(entries, p, c);
      UnderTransitive(p, c, prefix);
    }
    assert AtOrUnder(c, c);
  }

  lemma FilesAtDisjoint<V>(entries: map<string, Entry<V>>, prefix: string, d: string, done: set<string>, c: string)
    requires d != "." && done <= Children(entries, d) && c in Children(entries, d) && c !in done
    ensures FilesAt(entries, prefix, done) !! FilesAt(entries, prefix, {c})
  {
    forall p, q, b | b in done && AtOrUnder(p, b) && AtOrUnder(q, c) && Under(p, prefix) && Under(q, prefix)
      ensures p[|prefix| + 1..] != q[|prefix| + 1..]
    {
      if p[|prefix| + 1..] == q[|prefix| + 1..] {
        assert p == prefix + "/" + p[|prefix| + 1..] && q == prefix + "/" + q[|prefix| + 1..];
        OneChild(p, b, c, d);
      }
    }
  }

  lemma FilesAtBoth<V>(entries: map<string, Entry<V>>, prefix: string, a: set<string>, b: set<string>)
    ensures FilesAt(entries, prefix, a + b) == FilesAt(entries, prefix, a) + FilesAt(entries, prefix, b)
    ensures a <= b ==> FilesAt(entries, prefix, a) <= FilesAt(entries, prefix, b)
  {
    hide AtOrUnder, Under;
  }

  /** One more child adds its own files and nothing already seen. */
  lemma OneMoreChild<V>(entries: map<string, Entry<V>>, prefix: string, d: string, done: set<string>, c: string)
    requires IsTree(entries) && d != "." && AtOrUnder(d, prefix)
    requires done <= Children(entries, d) && c in Children(entries, d) && c !in done
    ensures Under(c, prefix)
    ensures FilesAt(entries, prefix, done + {c}) == FilesAt(entries, prefix, done) + Added(entries, prefix, c)
    ensures FilesAt(entries, prefix, done) !! Added(entries, prefix, c)
    ensures Added(entries, prefix, c) <= FilesBelow(entries, prefix, d)
  {
    hide Dir, LastSegment, IsTree, Under, Added, FilesBelow;
    assert c in entries && Dir(c) == d;
    BelowChild(c, c, d, prefix);
    AddedIsFilesAt(entries, prefix, c);
    FilesAtBoth(entries, prefix, done, {c});
    FilesAtDisjoint(entries, prefix, d, done, c);
    ChildrenCover(entries, prefix, d);
    FilesAtBoth(entries, prefix, {c}, Children(entries, d));
    hide FilesAt;
  }

  /** strings.Trim(s, "/"). */
  function TrimSlashes(s: string): string {
    if s != "" && s[0] == '/' then TrimSlashes(s[1..])
    else if s != "" && s[|s| - 1] == '/' then TrimSlashes(s[..|s| - 1])
    else s
  }

  /** A clean prefix, with or without its trailing slash, covers what lies at or below the folder it
      names. */
  lemma TrimOfClean(p: string)
    requires p != "" && (IsClean(p) || (p[|p| - 1] == '/' && IsClean(p[..|p| - 1])))
    ensures TrimSlashes(p) == if p[|p| - 1] == '/' then p[..|p| - 1] else p
    ensures forall k :: HasSegmentPrefix(k, p) <==> k == TrimSlashes(p) || Under(k, TrimSlashes(p))
  {
  }

  lemma UnderItself(prefix: string, t: string)
    ensures Under(prefix + "/" + t, prefix) && (prefix + "/" + t)[|prefix| + 1..] == t
  {
  }

  lemma DropThenPut<V>(flat: map<string, V>, key: string, value: V)
    ensures (flat - {key})[key := value] == flat[key := value]
  {
  }

  /** The flat map a tree stands for. */
  function FlatOf<V>(entries: map<string, Entry<V>>, prefix: string): map<string, V> {
    map k | k in FilesBelow(entries, prefix, prefix) && prefix + "/" + k in entries && entries[prefix + "/" + k].File?
      :: entries[prefix + "/" + k].value
  }

  lemma FlatKeys<V>(entries: map<string, Entry<V>>, prefix: string, k: string)
    ensures k in FilesBelow(entries, prefix, prefix) <==>
            prefix + "/" + k in entries && entries[prefix + "/" + k].File?
    ensures k in FlatOf(entries, prefix) <==> k in FilesBelow(entries, prefix, prefix)
  {
    var p := prefix + "/" + k;
    assert p[|prefix| + 1..] == k && Under(p, prefix);
    if k in FilesBelow(entries, prefix, prefix) {
      var q :| q in entries && entries[q].File? && Under(q, prefix) && q[|prefix| + 1..] == k;
      assert q[..|prefix| + 1] == prefix + "/" && q == q[..|prefix| + 1] + k;
    }
  }

  // ---- the key universe ----

  /** A slash-separated path with no empty segment. */
  predicate IsClean(p: string) {
    p != "" && p != "." && p[0] != '/' && p[|p| - 1] != '/' &&
    forall i :: 0 <= i < |p| - 1 ==> !(p[i] == '/' && p[i + 1] == '/')
  }

  /** No key is a segment-prefix of another: a key never names a folder of another key. */
  ghost predicate Antichain(keys: iset<string>) {
    forall a, b :: a in keys && b in keys ==> !Under(a, b)
  }

  lemma UnderPrefixed(prefix: string, a: string, b: string)
    ensures Under(prefix + "/" + a, prefix + "/" + b) <==> Under(a, b)
  {
    var n := |prefix| + 1;
    if Under(prefix + "/" + a, prefix + "/" + b) {
      assert (prefix + "/" + a)[n..n + |b| + 1] == b + "/";
      assert a[..|b| + 1] == b + "/";
    }
    if Under(a, b) {
      assert a == b + "/" + a[|b| + 1..];
      assert prefix + "/" + a == prefix + "/" + b + "/" + a[|b| + 1..];
    }
  }

  /** Two folders above one path lie on one line. */
  lemma Comparable(p: string, a: string, b: string)
    requires Under(p, a) && Under(p, b)
    ensures Under(a, b) || AtOrUnder(b, a)
  {
    if |b| < |a| {
      assert a == p[..|a|] && a[..|b| + 1] == b + "/";
    } else if |a| < |b| {
      assert b == p[..|b|] && b[..|a| + 1] == a + "/";
    } else {
      assert a == p[..|a|] && b == p[..|b|];
    }
  }

  ghost predicate GoodKeys(prefix: string, universe: iset<string>) {
    IsClean(prefix) && Antichain(universe) && forall k :: k in universe ==> IsClean(k)
  }

  /** Above the prefix there are only folders; below it files are universe keys and folders are
      ancestors of universe keys. */
  ghost predicate EntryFits(p: string, isDir: bool, prefix: string, universe: iset<string>) {
    && (AtOrUnder(prefix, p) ==> isDir)
    && (Under(p, prefix) && !isDir ==> p[|prefix| + 1..] in universe)
    && (Under(p, prefix) && isDir ==> exists k :: k in universe && Under(prefix + "/" + k, p))
  }

  /** What the store relies on about its tree. */
  ghost predicate Shaped<V>(entries: map<string, Entry<V>>, prefix: string, universe: iset<string>) {
    IsTree(entries) && GoodKeys(prefix, universe) &&
    forall p :: p in entries ==> EntryFits(p, entries[p].Folder?, prefix, universe)
  }

  lemma PrefixIsNoDot(prefix: string, universe: iset<string>, dir: string)
    requires GoodKeys(prefix, universe) && AtOrUnder(dir, prefix)
    ensures dir != "."
  {
  }

  lemma KeyIsNoFolder<V>(entries: map<string, Entry<V>>, prefix: string, universe: iset<string>, k: string)
    requires Shaped(entries, prefix, universe) && k in universe
    ensures prefix + "/" + k in entries ==> entries[prefix + "/" + k].File?
  {
    var full := prefix + "/" + k;
    if full in entries && entries[full].Folder? {
      assert Under(full, prefix);
      var k' :| k' in universe && Under(prefix + "/" + k', full);
      UnderPrefixed(prefix, k', k);
    }
  }

  lemma AncestorIsNoFile<V>(entries: map<string, Entry<V>>, prefix: string, universe: iset<string>, k: string,
                            d: string)
    requires Shaped(entries, prefix, universe) && k in universe && Under(prefix + "/" + k, d)
    ensures d in entries ==> entries[d].Folder?
  {
    var full := prefix + "/" + k;
    if d in entries && entries[d].File? {
      assert Under(full, prefix);
      Comparable(full, d, prefix);
      var k' := d[|prefix| + 1..];
      assert d == prefix + "/" + k';
      UnderPrefixed(prefix, k, k');
    }
  }

  /** Nothing lies below a path that is no folder. */
  lemma {:induction false} NothingBelow<V>(entries: map<string, Entry<V>>, p: string, d: string)
    requires IsTree(entries) && p in entries && Under(p, d) && d != "."
    ensures d in entries && entries[d].Folder?
  {
    var c := ChildAbove(entries, p, d);
  }

  /** The folders an operation may leave behind: ancestors of the path it wrote. */
  ghost predicate GrewFolders<V>(before: map<string, Entry<V>>, after: map<string, Entry<V>>, full: string) {
    && (forall p :: p in before ==> p in after && after[p] == before[p])
    && (forall p :: p in after && p !in before ==> after[p].Folder? && Under(full, p))
  }

  lemma GrewKeeps<V>(before: map<string, Entry<V>>, after: map<string, Entry<V>>,
                     prefix: string, universe: iset<string>, k: string)
    requires Shaped(before, prefix, universe) && k in universe && IsTree(after)
    requires GrewFolders(before, after, prefix + "/" + k)
    ensures Shaped(after, prefix, universe) && FlatOf(after, prefix) == FlatOf(before, prefix)
  {
    forall key ensures key in FlatOf(after, prefix) <==> key in FlatOf(before, prefix) {
      FlatKeys(before, prefix, key);
      FlatKeys(after, prefix, key);
    }
  }

  lemma ShapedIsNoDot<V>(entries: map<string, Entry<V>>, prefix: string, universe: iset<string>, dir: string)
    requires Shaped(entries, prefix, universe) && AtOrUnder(dir, prefix)
    ensures dir != "."
  {
    PrefixIsNoDot(prefix, universe, dir);
  }

  /** A file below the prefix is a clean path that ends in its key. */
  lemma FileHasKey<V>(entries: map<string, Entry<V>>, prefix: string, universe: iset<string>, path: string)
    requires Shaped(entries, prefix, universe) && path in entries && entries[path].File? && Under(path, prefix)
    ensures prefix + "/" < path && TrimSlashes(path) == path
  {
    hide Dir, LastSegment, Antichain, IsTree;
    var k := path[|prefix| + 1..];
    assert EntryFits(path, false, prefix, universe);
    assert k in universe && IsClean(k) && IsClean(prefix);
    assert path[|path| - 1] == k[|k| - 1] && path[0] == prefix[0];
  }

  lemma WriteKeeps<V>(before: map<string, Entry<V>>, prefix: string, universe: iset<string>, k: string, v: V)
    requires Shaped(before, prefix, universe) && k in universe
    requires var full := prefix + "/" + k; Dir(full) in before && before[Dir(full)].Folder?
    ensures var after := before[prefix + "/" + k := File(v)];
            Shaped(after, prefix, universe) && FlatOf(after, prefix) == FlatOf(before, prefix)[k := v]
  {
    hide Dir, LastSegment, IsClean, EntryFits, Shaped, Antichain;
    KeyIsNoFolder(before, prefix, universe, k);
    WriteKeepsShape(before, prefix, universe, k, v);
    WriteIsFlat(before, prefix, k, v);
  }

  lemma WriteKeepsShape<V>(before: map<string, Entry<V>>, prefix: string, universe: iset<string>, k: string, v: V)
    requires Shaped(before, prefix, universe) && k in universe
    requires var full := prefix + "/" + k; Dir(full) in before && before[Dir(full)].Folder?
    ensures Shaped(before[prefix + "/" + k := File(v)], prefix, universe)
  {
    hide LastSegment, IsClean, Antichain;
    var full := prefix + "/" + k;
    KeyIsNoFolder(before, prefix, universe, k);
    assert full[|prefix| + 1..] == k;
  }

  lemma WriteIsFlat<V>(before: map<string, Entry<V>>, prefix: string, k: string, v: V)
    ensures FlatOf(before[prefix + "/" + k := File(v)], prefix) == FlatOf(before, prefix)[k := v]
  {
    hide FilesBelow;
    var full := prefix + "/" + k;
    var after := before[full := File(v)];
    forall key ensures key in FlatOf(after, prefix) <==> key in FlatOf(before, prefix) || key == k {
      FlatKeys(before, prefix, key);
      FlatKeys(after, prefix, key);
      assert prefix + "/" + key == full ==> key == full[|prefix| + 1..];
    }
    assert full[|prefix| + 1..] == k;
  }

  lemma RemoveKeeps<V>(before: map<string, Entry<V>>, prefix: string, universe: iset<string>, k: string)
    requires Shaped(before, prefix, universe) && k in universe
    ensures var after := Removed(before, prefix + "/" + k);
            Shaped(after, prefix, universe) && FlatOf(after, prefix) == FlatOf(before, prefix) - {k} &&
            after == before - {prefix + "/" + k}
    ensures prefix + "/" + k in before <==> k in FlatOf(before, prefix)
  {
    hide Dir, LastSegment, IsClean, EntryFits, Antichain, FlatOf;
    RemoveKeepsShape(before, prefix, universe, k);
    RemoveIsFlat(before, prefix, k);
    FlatKeys(before, prefix, k);
    KeyIsNoFolder(before, prefix, universe, k);
  }

  lemma RemoveKeepsShape<V>(before: map<string, Entry<V>>, prefix: string, universe: iset<string>, k: string)
    requires Shaped(before, prefix, universe) && k in universe
    ensures Removed(before, prefix + "/" + k) == before - {prefix + "/" + k}
    ensures Shaped(before - {prefix + "/" + k}, prefix, universe)
  {
    hide Antichain;
    var full := prefix + "/" + k;
    KeyIsNoFolder(before, prefix, universe, k);
    assert |full| > 1 && full != ".";
    forall p | p in before && Under(p, full) ensures false {
      NothingBelow(before, p, full);
    }
    assert Under(full, prefix);
  }

  lemma RemoveIsFlat<V>(before: map<string, Entry<V>>, prefix: string, k: string)
    ensures FlatOf(before - {prefix + "/" + k}, prefix) == FlatOf(before, prefix) - {k}
  {
    hide FilesBelow;
    var full := prefix + "/" + k;
    var after := before - {full};
    forall key ensures key in FlatOf(after, prefix) <==> key in FlatOf(before, prefix) && key != k {
      FlatKeys(before, prefix, key);
      FlatKeys(after, prefix, key);
      assert prefix + "/" + key == full ==> key == full[|prefix| + 1..];
    }
    assert full[|prefix| + 1..] == k;
  }

  // ---- the remote folder ----

  /** Missing and Taken are the two answers the store acts on; Broken is every other failure. */
  datatype ClientError = Missing | Taken | Broken

  function Removed<V>(entries: map<string, Entry<V>>, p: string): map<string, Entry<V>> {
    map q | q in entries && !AtOrUnder(q, p) :: entries[q]
  }

  /** A path that can receive a file: its folder exists and it names no folder itself. */
  predicate CanHold<V>(entries: map<string, Entry<V>>, p: string) {
    (Dir(p) == "." || (Dir(p) in entries && entries[Dir(p)].Folder?)) && !(p in entries && entries[p].Folder?)
  }

  /** The direct children of a folder, each once, in any order. */
  ghost predicate IsListing<V>(entries: map<string, Entry<V>>, dir: string, children: seq<Child>) {
    && (forall i, j :: 0 <= i < j < |children| ==> children[i].path != children[j].path)
    && (forall c :: c in children ==>
                      c.path in entries && Dir(c.path) == dir && c.isDir == entries[c.path].Folder?)
    && (forall p :: p in entries && Dir(p) == dir ==> Child(p, entries[p].Folder?) in children)
  }

  /** An entry of the folder is among its listed children, and nothing else is. */
  lemma ListingShows<V>(entries: map<string, Entry<V>>, dir: string, children: seq<Child>, full: string)
    requires IsListing(entries, dir, children) && Dir(full) == dir
    ensures full in entries <==> exists j :: 0 <= j < |children| && children[j].path == full
  {
    hide Dir, LastSegment;
    if full in entries {
      assert Child(full, entries[full].Folder?) in children;
    }
    forall j | 0 <= j < |children| && children[j].path == full ensures full in entries {
      assert children[j] in children;
    }
  }

  function PathsOf(children: seq<Child>): set<string> {
    set c | c in children :: c.path
  }

  lemma ListedPaths<V>(entries: map<string, Entry<V>>, dir: string, children: seq<Child>, i: nat)
    requires IsListing(entries, dir, children) && i <= |children|
    ensures PathsOf(children[..i]) <= Children(entries, dir)
    ensures i == |children| ==> PathsOf(children[..i]) == Children(entries, dir)
    ensures i < |children| ==> children[i].path in Children(entries, dir) - PathsOf(children[..i])
    ensures i < |children| ==> PathsOf(children[..i + 1]) == PathsOf(children[..i]) + {children[i].path}
  {
    hide Dir, LastSegment;
    if i < |children| {
      assert children[i] in children;
      assert children[..i + 1] == children[..i] + [children[i]];
    }
    forall p | i == |children| && p in Children(entries, dir) ensures p in PathsOf(children[..i]) {
      assert Child(p, entries[p].Folder?) in children[..i];
    }
  }

  /** The remote Space. Any call may break off, before or after its effect, unless the server is steady;
      `faults` counts those. Whether an upload may replace a file is a property of the server. */
  class SpaceClient<V> {
    var entries: map<string, Entry<V>>
    var faults: nat
    const clobbers: bool
    const steady: bool

    constructor (clobbers: bool, steady: bool)
      ensures this.clobbers == clobbers && this.steady == steady && entries == map[] && faults == 0
    {
      this.clobbers, this.steady := clobbers, steady;
      entries, faults := map[], 0;
    }

    /** Nothing but calls that broke off has been counted since, and none on a steady server. */
    ghost predicate Since(was: nat)
      reads this
    {
      was <= faults && (steady ==> faults == was)
    }

    /** The direct children of a folder, in an order of the server's choosing. */
    method ListDir(dir: string) returns (r: Result<seq<Child>, ClientError>)
      modifies this`faults
      ensures Since(old(faults))
      ensures r.Ok? ==> dir in entries && entries[dir].Folder?
      ensures r.Ok? ==> IsListing(entries, dir, r.value)
      ensures r == Err(Missing) ==> dir !in entries
      ensures r.Err? ==> r == Err(Missing) || r == Err(Broken)
      ensures r == Err(Broken) ==> old(faults) < faults || (dir in entries && entries[dir].File?)
    {
      hide Dir, LastSegment;
      var broken := *;
      broken := broken && !steady;
      if broken {
        faults := faults + 1;
        return Err(Broken);
      }
      if dir !in entries || entries[dir].File? {
        return Err(if dir in entries then Broken else Missing);
      }
      var out: seq<Child> := [];
      var rest := set p | p in entries && Dir(p) == dir;
      ghost var all := rest;
      while rest != {}
        invariant rest <= all
        invariant forall c :: c in out ==> c.path in all - rest && c.isDir == entries[c.path].Folder?
        invariant forall p :: p in all - rest ==> Child(p, entries[p].Folder?) in out
        invariant forall i, j :: 0 <= i < j < |out| ==> out[i].path != out[j].path
        decreases rest
      {
        var p :| p in rest;
        forall i | 0 <= i < |out| ensures out[i].path != p {
          assert out[i] in out;
        }
        out := out + [Child(p, entries[p].Folder?)];
        rest := rest - {p};
      }
      r := Ok(out);
    }

    method OpenFile(p: string) returns (r: Result<V, ClientError>)
      modifies this`faults
      ensures Since(old(faults))
      ensures r.Ok? ==> p in entries && entries[p] == File(r.value)
      ensures r == Err(Missing) ==> p !in entries
      ensures r.Err? ==> r == Err(Missing) || r == Err(Broken)
      ensures r == Err(Broken) ==> old(faults) < faults || (p in entries && entries[p].Folder?)
    {
      var broken := *;
      broken := broken && !steady;
      if broken {
        faults := faults + 1;
        return Err(Broken);
      }
      r := if p !in entries then Err(Missing) else if entries[p].Folder? then Err(Broken) else Ok(entries[p].value);
    }

    /** Making a folder that is already there succeeds. */
    method MakeDir(dir: string) returns (r: Result<(), ClientError>)
      modifies this
      ensures Since(old(faults))
      ensures entries == old(entries) ||
              (dir !in old(entries) && CanHold(old(entries), dir) && entries == old(entries)[dir := Folder])
      ensures r.Ok? ==> dir in entries
      ensures r.Err? ==> r == Err(Broken) &&
                         (old(faults) < faults || (dir !in old(entries) && !CanHold(old(entries), dir)))
    {
      var broken, landed := *, *;
      broken := broken && !steady;
      if dir !in entries && CanHold(entries, dir) && (!broken || landed) {
        entries := entries[dir := Folder];
      }
      if broken {
        faults := faults + 1;
      }
      r := if !broken && dir in entries then Ok(()) else Err(Broken);
    }

    method Upload(p: string, value: V) returns (r: Result<(), ClientError>)
      modifies this
      ensures Since(old(faults))
      ensures entries == old(entries) ||
              (CanHold(old(entries), p) && (clobbers || p !in old(entries)) && entries == old(entries)[p := File(value)])
      ensures r.Ok? ==> p in entries && entries[p] == File(value)
      ensures r == Err(Taken) ==> !clobbers && p in old(entries) && entries == old(entries)
      ensures r.Err? ==> r == Err(Taken) || r == Err(Broken)
      ensures r == Err(Broken) ==> old(faults) < faults || !CanHold(old(entries), p)
      ensures r.Ok? ==> CanHold(old(entries), p) && (clobbers || p !in old(entries)) && entries == old(entries)[p := File(value)]
    {
      var broken, landed := *, *;
      broken := broken && !steady;
      if CanHold(entries, p) && !clobbers && p in entries && !broken {
        return Err(Taken);
      }
      var ok := CanHold(entries, p) && (clobbers || p !in entries);
      if ok && (!broken || landed) {
        entries := entries[p := File(value)];
      }
      if broken {
        faults := faults + 1;
      }
      r := if !broken && ok then Ok(()) else Err(Broken);
    }

    /** Deletes a path and everything below it. */
    method Delete(p: string) returns (r: Result<(), ClientError>)
      modifies this
      ensures Since(old(faults))
      ensures r.Ok? ==> p in old(entries) && entries == Removed(old(entries), p)
      ensures r == Err(Missing) ==> p !in old(entries) && entries == old(entries)
      ensures r.Err? ==> r == Err(Missing) || r == Err(Broken)
      ensures r == Err(Broken) ==> old(faults) < faults && (entries == old(entries) || entries == Removed(old(entries), p))
    {
      var broken, landed := *, *;
      broken := broken && !steady;
      var there := p in entries;
      if there && (!broken || landed) {
        entries := Removed(entries, p);
      }
      if broken {
        faults := faults + 1;
        return Err(Broken);
      }
      r := if there then Ok(()) else Err(Missing);
    }
  }

  // ---- the store ----

  /** The errors a store method can report besides its sentinels are all failures. */
  function AsStoreError(e: ClientError): StoreError {
    if e == Missing then NotFound else Failed
  }

  class Store<V> {
    const client: SpaceClient<V>
    const prefix: string
    /** The keys this deployment uses. */
    ghost const universe: iset<string>
    /** Folders known to exist. */
    var dirs: set<string>

    constructor (client: SpaceClient<V>, prefix: string, ghost universe: iset<string>)
      requires Shaped(client.entries, prefix, universe)
      ensures Valid() && this.client == client && this.prefix == prefix && this.universe == universe
    {
      this.client, this.prefix, this.universe, dirs := client, prefix, universe, {};
    }

    ghost predicate Valid()
      reads this, client
    {
      && Shaped(client.entries, prefix, universe)
      && (forall d :: d in dirs ==> d in client.entries && client.entries[d].Folder?)
    }

    /** The flat map this store behaves as. */
    ghost function Flat(): map<string, V>
      reads client
    {
      FlatOf(client.entries, prefix)
    }

    /** pathFor: surrounding slashes are dropped. */
    function PathFor(key: string): (p: string)
      ensures IsClean(key) ==> p == prefix + "/" + key
    {
      if TrimSlashes(key) == "" then prefix else prefix + "/" + TrimSlashes(key)
    }

    /** keyFor: the key of a path below the prefix. */
    function KeyFor(path: string): Option<string> {
      var full := TrimSlashes(path);
      if prefix + "/" < full then Some(full[|prefix| + 1..]) else None
    }

    method Get(key: string) returns (r: Result<V, StoreError>)
      requires Valid() && key in universe
      modifies client`faults
      ensures Valid() && client.Since(old(client.faults))
      ensures r.Ok? ==> key in Flat() && r.value == Flat()[key]
      ensures r == Err(NotFound) ==> key !in Flat()
      ensures r.Err? ==> r == Err(NotFound) || (r == Err(Failed) && old(client.faults) < client.faults)
    {
      var got := client.OpenFile(PathFor(key));
      FlatKeys(client.entries, prefix, key);
      KeyIsNoFolder(client.entries, prefix, universe, key);
      r := match got case Ok(v) => Ok(v) case Err(e) => Err(AsStoreError(e));
    }

    /** Makes a folder and its parents, remembering what it made. The cache never names a folder
        that is not there, and nothing but ancestors of the key's path appears. */
    method EnsureDir(dir: string, ghost key: string) returns (r: Result<(), StoreError>)
      requires Valid() && key in universe
      requires dir == "." || Under(prefix + "/" + key, dir)
      modifies this`dirs, client
      ensures Valid() && client.Since(old(client.faults))
      ensures GrewFolders(old(client.entries), client.entries, prefix + "/" + key) && Flat() == old(Flat())
      ensures r.Ok? ==> dir == "." || (dir in client.entries && client.entries[dir].Folder?)
      ensures r.Err? ==> r == Err(Failed) && old(client.faults) < client.faults
      decreases |dir|
    {
      if dir == "." || dir in dirs {
        return Ok(());
      }
      ghost var full := prefix + "/" + key;
      var parent := Dir(dir);
      if parent != "." {
        PathOfChild(dir, parent);
        UnderTransitive(full, dir, parent);
        r := EnsureDir(parent, key);
        if r.Err? {
          return;
        }
      }
      ghost var before := client.entries;
      AncestorIsNoFile(before, prefix, universe, key, dir);
      r := MakeKnown(dir, key);
    }

    /** One MakeDir call, cached on success. */
    method MakeKnown(dir: string, ghost key: string) returns (r: Result<(), StoreError>)
      requires Valid() && key in universe && Under(prefix + "/" + key, dir)
      requires CanHold(client.entries, dir) || (dir in client.entries && client.entries[dir].Folder?)
      modifies this`dirs, client
      ensures Valid() && client.Since(old(client.faults))
      ensures GrewFolders(old(client.entries), client.entries, prefix + "/" + key) && Flat() == old(Flat())
      ensures r.Ok? ==> dir in client.entries && client.entries[dir].Folder?
      ensures r.Err? ==> r == Err(Failed) && old(client.faults) < client.faults
    {
      var made := client.MakeDir(dir);
      GrewKeeps(old(client.entries), client.entries, prefix, universe, key);
      AncestorIsNoFile(client.entries, prefix, universe, key, dir);
      if made.Err? {
        return Err(Failed);
      }
      dirs := dirs + {dir};
      r := Ok(());
    }
  
    /** Makes sure a document's folder exists. */
    method PrepareWrite(key: string) returns (r: Result<string, StoreError>)
      requires Valid() && key in universe
      modifies this`dirs, client
      ensures Valid() && client.Since(old(client.faults)) && Flat() == old(Flat())
      ensures r.Ok? ==> r.value == prefix + "/" + key && CanHold(client.entries, r.value)
      ensures r.Err? ==> r == Err(Failed) && old(client.faults) < client.faults
    {
      var full := PathFor(key);
      DirStaysUnder(full, prefix);
      PathOfChild(full, Dir(full));
      var made := EnsureDir(Dir(full), key);
      KeyIsNoFolder(client.entries, prefix, universe, key);
      r := if made.Err? then Err(Failed) else Ok(full);
    }

    /** Whether a document is stored at a path, answered by listing its folder. */
    method IsStored(full: string) returns (r: Result<bool, StoreError>)
      requires Dir(full) in client.entries && client.entries[Dir(full)].Folder?
      modifies client`faults
      ensures client.Since(old(client.faults))
      ensures r.Ok? ==> r.value == (full in client.entries)
      ensures r.Err? ==> r == Err(Failed) && old(client.faults) < client.faults
    {
      hide Dir, LastSegment, IsListing;
      var listed := client.ListDir(Dir(full));
      if listed.Err? {
        return if listed == Err(Missing) then Ok(false) else Err(Failed);
      }
      ListingShows(client.entries, Dir(full), listed.value, full);
      for i := 0 to |listed.value|
        invariant forall j :: 0 <= j < i ==> listed.value[j].path != full
      {
        if listed.value[i].path == full {
          return Ok(true);
        }
      }
      r := Ok(false);
    }

    /** A document's folder is the prefix or lies below it, so it is not the top of the Space. */
    lemma FolderOf(key: string)
      requires GoodKeys(prefix, universe)
      ensures Dir(prefix + "/" + key) != "."
    {
      DirStaysUnder(prefix + "/" + key, prefix);
      assert |Dir(prefix + "/" + key)| == 1 ==> Dir(prefix + "/" + key) == prefix;
    }

    /** One upload of a key's document. */
    method PutFile(key: string, value: V) returns (r: Result<(), ClientError>)
      requires Valid() && key in universe && CanHold(client.entries, prefix + "/" + key)
      modifies client
      ensures Valid() && client.Since(old(client.faults))
      ensures r.Ok? ==> Flat() == old(Flat())[key := value]
      ensures Flat() == old(Flat()) ||
              ((client.clobbers || key !in old(Flat())) && Flat() == old(Flat())[key := value])
      ensures r == Err(Taken) ==> !client.clobbers && key in old(Flat()) && Flat() == old(Flat())
      ensures r.Err? ==> r == Err(Taken) || (r == Err(Broken) && old(client.faults) < client.faults)
    {
      var full := PathFor(key);
      FolderOf(key);
      WriteKeeps(client.entries, prefix, universe, key, value);
      FlatKeys(client.entries, prefix, key);
      KeyIsNoFolder(client.entries, prefix, universe, key);
      r := client.Upload(full, value);
    }

    /** One deletion of a key's document. */
    method DropFile(key: string) returns (r: Result<(), ClientError>)
      requires Valid() && key in universe
      modifies client
      ensures Valid() && client.Since(old(client.faults))
      ensures r.Ok? ==> key in old(Flat()) && Flat() == old(Flat()) - {key}
      ensures r == Err(Missing) ==> key !in old(Flat()) && Flat() == old(Flat())
      ensures r.Err? ==> r == Err(Missing) || (r == Err(Broken) && old(client.faults) < client.faults)
      ensures Flat() == old(Flat()) || Flat() == old(Flat()) - {key}
      ensures client.entries == old(client.entries) || client.entries == old(client.entries) - {prefix + "/" + key}
    {
      KeyIsNoFolder(client.entries, prefix, universe, key);
      RemoveKeeps(client.entries, prefix, universe, key);
      var full := PathFor(key);
      assert full == prefix + "/" + key;
      r := client.Delete(full);
    }

    /** Create: as the flat store, or a failure that changed nothing or has already taken effect. */
    method Create(key: string, value: V) returns (r: Result<(), StoreError>)
      requires Valid() && key in universe
      modifies this`dirs, client
      ensures Valid() && client.Since(old(client.faults))
      ensures r == Ok(()) ==> key !in old(Flat()) && Flat() == old(Flat())[key := value]
      ensures r == Err(Exists) ==> key in old(Flat()) && Flat() == old(Flat())
      ensures r == Err(Failed) ==> old(client.faults) < client.faults
      ensures r == Err(Failed) ==> Flat() == old(Flat()) ||
                                   (key !in old(Flat()) && Flat() == old(Flat())[key := value])
      ensures r != Err(NotFound)
    {
      var prepared := PrepareWrite(key);
      if prepared.Err? {
        return Err(Failed);
      }
      FlatKeys(client.entries, prefix, key);
      KeyIsNoFolder(client.entries, prefix, universe, key);
      FolderOf(key);
      var stored := IsStored(prepared.value);
      if stored.Err? {
        return Err(Failed);
      }
      if stored.value {
        return Err(Exists);
      }
      var sent := PutFile(key, value);
      r := match sent case Ok(_) => Ok(()) case Err(e) => if e == Taken then Err(Exists) else Err(Failed);
    }

    /** Replace, which may degrade to delete-then-write. Stopped anywhere it touches no other key, and it
        loses the record only on a server that refuses to replace a file. */
    method Replace(key: string, value: V) returns (r: Result<(), StoreError>)
      requires Valid() && key in universe
      modifies this`dirs, client
      ensures Valid() && client.Since(old(client.faults))
      ensures r == Ok(()) ==> Flat() == old(Flat())[key := value]
      ensures r.Err? ==> r == Err(Failed) && old(client.faults) < client.faults
      ensures r.Err? ==> Flat() == old(Flat()) || Flat() == old(Flat())[key := value] ||
                         (!client.clobbers && Flat() == old(Flat()) - {key})
    {
      var prepared := PrepareWrite(key);
      if prepared.Err? {
        return Err(Failed);
      }
      ghost var flat := Flat();
      var sent := PutFile(key, value);
      if sent == Err(Taken) {
        var gone := DropFile(key);
        if gone.Err? && gone != Err(Missing) {
          return Err(Failed);
        }
        DropThenPut(flat, key, value);
        sent := PutFile(key, value);
      }
      r := if sent.Ok? then Ok(()) else Err(Failed);
    }

    method Delete(key: string) returns (r: Result<(), StoreError>)
      requires Valid() && key in universe
      modifies client
      ensures Valid() && client.Since(old(client.faults))
      ensures r == Ok(()) ==> key in old(Flat()) && Flat() == old(Flat()) - {key}
      ensures r == Err(NotFound) ==> key !in old(Flat()) && Flat() == old(Flat())
      ensures r == Err(Failed) ==> old(client.faults) < client.faults
      ensures r == Err(Failed) ==> Flat() == old(Flat()) || Flat() == old(Flat()) - {key}
      ensures r != Err(Exists)
    {
      var gone := DropFile(key);
      r := match gone case Ok(_) => Ok(()) case Err(e) => Err(AsStoreError(e));
    }
  
    lemma KeyOfFile(path: string, dir: string)
      requires Shaped(client.entries, prefix, universe) && AtOrUnder(dir, prefix)
      requires path in client.entries && client.entries[path].File? && Dir(path) == dir
      ensures KeyFor(path) == Some(path[|prefix| + 1..])
    {
      hide Dir, LastSegment, IsClean, EntryFits, Shaped, Under, AtOrUnder, TrimSlashes;
      ShapedIsNoDot(client.entries, prefix, universe, dir);
      BelowChild(path, path, dir, prefix);
      FileHasKey(client.entries, prefix, universe, path);
    }

    /** Collects the keys of the files below a folder, keeping the list in order as it goes: the
        server's order is arbitrary, and no traversal order would be the order of whole keys. */
    method Walk(dir: string, out: seq<string>) returns (r: Result<seq<string>, StoreError>)
      requires Shaped(client.entries, prefix, universe) && AtOrUnder(dir, prefix) && Ascending(out, Less)
      requires Elements(out) !! FilesBelow(client.entries, prefix, dir)
      modifies client`faults
      ensures client.Since(old(client.faults))
      ensures r.Ok? ==> Lists(r.value, Elements(out) + FilesBelow(client.entries, prefix, dir), Less)
      ensures r.Ok? ==> !(dir in client.entries && client.entries[dir].File?)
      ensures r.Err? ==> r == Err(Failed)
      ensures r.Err? ==> old(client.faults) < client.faults || (dir in client.entries && client.entries[dir].File?)
      decreases EntriesBelow(client.entries, dir), 3
    {
      ghost var entries := client.entries;
      assert dir != ".";
      var listed := client.ListDir(dir);
      if listed.Err? {
        if listed == Err(Missing) {
          NothingThere(entries, prefix, dir);
          assert Elements(out) + {} == Elements(out);
          return Ok(out);
        }
        return Err(Failed);
      }
      r := WalkAll(listed.value, dir, out);
    }

    method WalkAll(children: seq<Child>, dir: string, out: seq<string>) returns (r: Result<seq<string>, StoreError>)
      requires Shaped(client.entries, prefix, universe) && AtOrUnder(dir, prefix) && Ascending(out, Less)
      requires IsListing(client.entries, dir, children)
      requires Elements(out) !! FilesBelow(client.entries, prefix, dir)
      modifies client`faults
      ensures client.Since(old(client.faults))
      ensures r.Ok? ==> Lists(r.value, Elements(out) + FilesBelow(client.entries, prefix, dir), Less)
      ensures r.Err? ==> r == Err(Failed) && old(client.faults) < client.faults
      decreases EntriesBelow(client.entries, dir), 2
    {
      ghost var entries := client.entries;
      var keys := out;
      assert FilesAt(entries, prefix, PathsOf(children[..0])) == {};
      for i := 0 to |children|
        invariant client.entries == entries && client.Since(old(client.faults))
        invariant Lists(keys, Elements(out) + FilesAt(entries, prefix, PathsOf(children[..i])), Less)
      {
        var more := WalkNext(children, i, dir, out, keys);
        if more.Err? {
          return Err(Failed);
        }
        keys := more.value;
      }
      ListedPaths(entries, dir, children, |children|);
      ChildrenCover(entries, prefix, dir);
      r := Ok(keys);
    }

    method WalkNext(children: seq<Child>, i: nat, dir: string, ghost out: seq<string>, keys: seq<string>)
      returns (r: Result<seq<string>, StoreError>)
      requires Shaped(client.entries, prefix, universe) && AtOrUnder(dir, prefix) && i < |children|
      requires IsListing(client.entries, dir, children)
      requires Elements(out) !! FilesBelow(client.entries, prefix, dir)
      requires Lists(keys, Elements(out) + FilesAt(client.entries, prefix, PathsOf(children[..i])), Less)
      modifies client`faults
      ensures client.Since(old(client.faults))
      ensures r.Ok? ==>
                Lists(r.value, Elements(out) + FilesAt(client.entries, prefix, PathsOf(children[..i + 1])), Less)
      ensures r.Err? ==> r == Err(Failed) && old(client.faults) < client.faults
      decreases EntriesBelow(client.entries, dir), 1
    {
      hide Dir, LastSegment, FilesAt, FilesBelow, PathsOf, Less, Under, EntryFits, IsTree, EntriesBelow, Added;
      assert IsTree(client.entries) && GoodKeys(prefix, universe);
      PrefixIsNoDot(prefix, universe, dir);
      ListedPaths(client.entries, dir, children, i);
      OneMoreChild(client.entries, prefix, dir, PathsOf(children[..i]), children[i].path);
      assert children[i] in children;
      r := WalkEntry(children[i], dir, keys);
    }

    method WalkEntry(child: Child, dir: string, keys: seq<string>) returns (r: Result<seq<string>, StoreError>)
      requires Shaped(client.entries, prefix, universe) && AtOrUnder(dir, prefix) && Ascending(keys, Less)
      requires child.path in client.entries && Dir(child.path) == dir && Under(child.path, prefix)
      requires child.isDir == client.entries[child.path].Folder?
      requires Elements(keys) !! Added(client.entries, prefix, child.path)
      modifies client`faults
      ensures client.Since(old(client.faults))
      ensures r.Ok? ==> Lists(r.value, Elements(keys) + Added(client.entries, prefix, child.path), Less)
      ensures r.Err? ==> r == Err(Failed) && old(client.faults) < client.faults
      decreases EntriesBelow(client.entries, dir), 0
    {
      assert dir != ".";
      if child.isDir {
        ChildIsSmaller(client.entries, dir, child.path);
        r := Walk(child.path, keys);
        return;
      }
      KeyOfFile(child.path, dir);
      var key := KeyFor(child.path);
      if key == None {
        return Ok(keys);
      }
      LessIsOrder(Elements(keys) + {key.value});
      var inserted := InsertSorted(keys, key.value, Less);
      r := Ok(inserted);
    }

    /** List: every key below the prefix and no other, in lexical order of whole keys. A prefix that is
        itself a stored key cannot be listed here, where the flat store answers with that key. */
    method List(p: string) returns (r: Result<seq<string>, StoreError>)
      requires Valid()
      requires p == "" || IsClean(p) || (p[|p| - 1] == '/' && IsClean(p[..|p| - 1]))
      modifies client`faults
      ensures Valid() && client.Since(old(client.faults))
      ensures r.Ok? ==> TrimSlashes(p) !in Flat() && r.value == Listing(KeysBelow(Flat(), p))
      ensures r.Err? ==> r == Err(Failed) && (old(client.faults) < client.faults || TrimSlashes(p) in Flat())
    {
      RootOf(p);
      r := Walk(PathFor(p), []);
      if r.Ok? {
        ListingIs(r.value, KeysBelow(Flat(), p));
      }
    }

    /** The folder a prefix names holds exactly the flat map's keys below it. */
    lemma RootOf(p: string)
      requires Valid()
      requires p == "" || IsClean(p) || (p[|p| - 1] == '/' && IsClean(p[..|p| - 1]))
      ensures AtOrUnder(PathFor(p), prefix)
      ensures PathFor(p) in client.entries && client.entries[PathFor(p)].File? <==> TrimSlashes(p) in Flat()
      ensures TrimSlashes(p) !in Flat() ==> FilesBelow(client.entries, prefix, PathFor(p)) == KeysBelow(Flat(), p)
    {
      hide IsClean, Dir, LastSegment, FilesBelow, Under, Shaped, FlatOf;
      var t, root := TrimSlashes(p), PathFor(p);
      FlatKeys(client.entries, prefix, t);
      if p == "" {
        NoEmptyKey();
        forall k ensures k in FilesBelow(client.entries, prefix, root) <==> k in KeysBelow(Flat(), p) {
          KeyBelow(t, k);
        }
      } else {
        TrimOfClean(p);
        assert root == prefix + "/" + t && AtOrUnder(root, prefix) by {
          assert root[..|prefix| + 1] == prefix + "/";
          UnderItself(prefix, t);
        }
        forall k | t !in Flat() ensures k in FilesBelow(client.entries, prefix, root) <==> k in KeysBelow(Flat(), p) {
          KeyBelow(t, k);
        }
      }
    }

    /** The root is a folder, and no key is empty. */
    lemma NoEmptyKey()
      requires Valid()
      ensures "" !in Flat() && !(prefix in client.entries && client.entries[prefix].File?)
    {
      FlatKeys(client.entries, prefix, "");
      var full := prefix + "/";
      assert prefix + "/" + "" == full;
      assert full[|prefix| + 1..] == "" && Under(full, prefix);
      assert full in client.entries && client.entries[full].File? ==> EntryFits(full, false, prefix, universe);
      assert prefix in client.entries ==> EntryFits(prefix, client.entries[prefix].Folder?, prefix, universe);
    }

    /** A stored key lies below a named folder exactly when its path does. */
    lemma KeyBelow(t: string, k: string)
      requires Valid() && t !in Flat()
      ensures k in FilesBelow(client.entries, prefix, prefix + "/" + t) <==> k in Flat() && Under(k, t)
      ensures k in FilesBelow(client.entries, prefix, prefix) <==> k in Flat()
      ensures k in Flat() ==> k != t
    {
      FlatKeys(client.entries, prefix, k);
      UnderPrefixed(prefix, k, t);
      var full := prefix + "/" + k;
      assert Under(full, prefix) && full[|prefix| + 1..] == k;
      assert k in Flat() ==> EntryFits(full, false, prefix, universe);
      if k in FilesBelow(client.entries, prefix, prefix + "/" + t) {
        var q :| q in client.entries && client.entries[q].File? && Under(q, prefix + "/" + t) && Under(q, prefix)
                 && q[|prefix| + 1..] == k;
        assert q == full;
      }
    }
  }
}
