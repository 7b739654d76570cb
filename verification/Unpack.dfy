/** Unpacking a volume tar into an empty staging directory
    (backupxfer/unpack.go): the entry loop against the tree its entries denote. */
module Unpack {
  import opened Text
  import opened Members
  import opened Credential

  const DEFAULT_MAX_ENTRIES := 1_000_000
  const MAX_INT64 := 0x7fff_ffff_ffff_ffff

  datatype Kind = Dir | Reg | Symlink | Other

  /** A tar entry: its header, the bytes the tar reader yields for it, and
      whether reading them ended in an error. Sizes are int64. */
  datatype Entry = Entry(name: string, kind: Kind, size: int, data: Bytes, broken: bool)

  datatype Node = DirNode | FileNode(data: Bytes)

  type Path = seq<string>

  /** Everything beneath the staging directory, by its path from there. */
  type Tree = map<Path, Node>

  // ---------- names ----------

  predicate Plain(p: string) {
    p != "" && p != "." && p != ".."
  }

  predicate AllPlain(parts: Path) {
    forall i :: 0 <= i < |parts| ==> Plain(parts[i])
  }

  /** The check for ".." and a leading slash, then splitVolumePath's own. */
  predicate Refused(name: string) {
    HasDots(name) || name == "" || name[0] == '/' || '\0' in name
  }

  /** strings.TrimSuffix(name, "/"). */
  function Trimmed(name: string): (t: string)
    requires name != ""
    ensures t <= name
  {
    if name[|name| - 1] == '/' then name[..|name| - 1] else name
  }

  /** splitVolumePath; the empty path stands for a refusal. */
  function PathOf(name: string): Path {
    if Refused(name) then []
    else
      var parts := Split(Trimmed(name), '/');
      if AllPlain(parts) then parts else []
  }

  lemma PathOfParts(name: string)
    requires PathOf(name) != []
    ensures name != "" && PathOf(name) == Split(Trimmed(name), '/')
    ensures AllPlain(PathOf(name)) && '\0' !in name
  {
  }

  /** An accepted name is a plain descent: components the file-system primitives
      take, none of which leaves the directory it is opened in. */
  lemma PathDescends(name: string)
    requires PathOf(name) != []
    ensures forall i :: 0 <= i < |PathOf(name)| ==> Component(PathOf(name)[i]) && '\0' !in PathOf(name)[i]
  {
    PathOfParts(name);
    SplitParts(Trimmed(name), '/');
    NoNul(Trimmed(name));
  }

  /** Joining the components, the key of the seen map, tells paths apart. */
  lemma JoinTellsApart(a: string, b: string)
    requires PathOf(a) != [] && PathOf(b) != [] && Join(PathOf(a), '/') == Join(PathOf(b), '/')
    ensures PathOf(a) == PathOf(b)
  {
    PathOfParts(a);
    PathOfParts(b);
    SplitParts(Trimmed(a), '/');
    SplitParts(Trimmed(b), '/');
  }

  lemma {:induction false} NoNul(s: string)
    requires '\0' !in s
    ensures forall i :: 0 <= i < |Split(s, '/')| ==> '\0' !in Split(s, '/')[i]
    decreases |s|
  {
    var i := IndexOf(s, '/');
    if i < |s| {
      NoNul(s[i + 1..]);
    }
  }

  /** An entry with its name resolved. */
  datatype Item = Item(path: Path, kind: Kind, size: int, data: Bytes, broken: bool)

  function ItemOf(e: Entry): (i: Item)
    ensures i.path == PathOf(e.name) && i.kind == e.kind && i.size == e.size
    ensures i.data == e.data && i.broken == e.broken
  {
    Item(PathOf(e.name), e.kind, e.size, e.data, e.broken)
  }

  function Items(es: seq<Entry>): (items: seq<Item>)
    ensures |items| == |es|
    ensures forall i :: 0 <= i < |es| ==> items[i] == ItemOf(es[i])
  {
    seq(|es|, i requires 0 <= i < |es| => ItemOf(es[i]))
  }

  // ---------- the tree that entries denote ----------

  /** `p` is an entry's path or an ancestor of one. */
  ghost predicate Named(es: seq<Item>, p: Path) {
    p != [] && exists e :: e in es && p <= e.path
  }

  ghost predicate FileAt(es: seq<Item>, p: Path, d: Bytes) {
    exists e :: e in es && e.kind == Reg && e.path == p && e.data == d
  }

  /** Each file with its bytes, each named directory and ancestor, nothing else. */
  ghost predicate Denotes(es: seq<Item>, t: Tree) {
    && (forall p :: p in t <==> Named(es, p))
    && (forall p, d :: p in t ==> (t[p] == FileNode(d) <==> FileAt(es, p, d)))
  }

  /** An entry that can be put back by itself. */
  predicate Fits(e: Item) {
    && e.path != []
    && (e.kind == Dir || (e.kind == Reg && 0 <= e.size < MAX_INT64 && !e.broken && |e.data| == e.size))
  }

  ghost function Sum(es: seq<Item>, w: Item -> int): int {
    if es == [] then 0 else Sum(es[..|es| - 1], w) + w(es[|es| - 1])
  }

  function SizeOf(e: Item): int {
    if e.kind == Reg then e.size else 0
  }

  function OneFile(e: Item): int {
    if e.kind == Reg then 1 else 0
  }

  function OneDir(e: Item): int {
    if e.kind == Dir then 1 else 0
  }

  ghost function Total(es: seq<Item>): int {
    Sum(es, SizeOf)
  }

  ghost predicate Clash(e: Item, f: Item) {
    e.path == f.path || (e.kind == Reg && e.path <= f.path) || (f.kind == Reg && f.path <= e.path)
  }

  /** The tars that unpack: nothing in it mentions an order. */
  ghost predicate Sound(es: seq<Item>, maxBytes: nat, maxEntries: nat) {
    && |es| <= maxEntries
    && (forall e :: e in es ==> Fits(e))
    && (forall i, j :: 0 <= i < j < |es| ==> !Clash(es[i], es[j]))
    && Total(es) <= maxBytes
  }

  lemma {:induction false} TotalMonotone(es: seq<Item>, k: nat)
    requires k <= |es| && forall e :: e in es ==> Fits(e)
    ensures 0 <= Total(es[..k]) <= Total(es)
    decreases |es|
  {
    if k < |es| {
      var init := es[..|es| - 1];
      assert init[..k] == es[..k];
      assert es[|es| - 1] in es;
      TotalMonotone(init, k);
    } else {
      assert es[..k] == es;
      if k > 0 {
        assert es[|es| - 1] in es;
        TotalMonotone(es[..|es| - 1], k - 1);
      }
    }
  }

  // ---------- creating directories and files ----------

  /** A file stands where a directory is needed. */
  ghost predicate Blocked(t: Tree, parts: Path) {
    exists k :: 0 < k <= |parts| && parts[..k] in t && t[parts[..k]].FileNode?
  }

  ghost function WithDirs(t: Tree, parts: Path): Tree {
    t + map p | p in (set k | 0 < k <= |parts| :: parts[..k]) && p !in t :: DirNode
  }

  /** openBeneathMkdir: descends, creating each directory that is not there. */
  method OpenBeneathMkdir(t: Tree, parts: Path) returns (r: Option<Tree>)
    ensures r.None? <==> Blocked(t, parts)
    ensures r.Some? ==> r.value == WithDirs(t, parts)
  {
    var out := t;
    for i := 0 to |parts|
      invariant forall k :: 0 < k <= i ==> parts[..k] in out && out[parts[..k]].DirNode?
      invariant forall p :: p in t ==> p in out && out[p] == t[p]
      invariant forall p :: p in out && p !in t ==> out[p] == DirNode && exists k :: 0 < k <= i && p == parts[..k]
    {
      var p := parts[..i + 1];
      if p in out {
        if out[p].FileNode? {
          return None;
        }
      } else {
        out := out[p := DirNode];
      }
    }
    assert out == WithDirs(t, parts);
    r := Some(out);
  }

  /** writeEntry: an exclusive create, then exactly the declared bytes, read
      with one byte to spare. The limit wraps below zero at the largest int64,
      and then nothing is read. */
  method WriteEntry(t: Tree, p: Path, e: Item) returns (r: Option<Tree>)
    requires 0 <= e.size <= MAX_INT64
    ensures r.Some? <==> p !in t && !e.broken && e.size < MAX_INT64 && |e.data| == e.size
    ensures r.Some? ==> r.value == t[p := FileNode(e.data)]
  {
    if p in t {
      return None;
    }
    var limit := if e.size == MAX_INT64 then -MAX_INT64 - 1 else e.size + 1;
    var copied := if limit <= 0 then "" else e.data[..Min(limit, |e.data|)];
    if e.broken || |copied| != e.size {
      return None;
    }
    assert copied == e.data;
    r := Some(t[p := FileNode(copied)]);
  }

  // ---------- one more entry ----------

  lemma BlockedClashes(es: seq<Item>, t: Tree, e: Item, parts: Path)
    requires Denotes(es, t) && parts <= e.path && Blocked(t, parts)
    ensures !Clear(es, e)
  {
    var k :| 0 < k <= |parts| && parts[..k] in t && t[parts[..k]].FileNode?;
    assert FileAt(es, parts[..k], t[parts[..k]].data);
    var f :| f in es && f.kind == Reg && f.path == parts[..k] && f.data == t[parts[..k]].data;
    assert Clash(f, e);
  }

  lemma TakenClashes(es: seq<Item>, t: Tree, e: Item)
    requires Denotes(es, t) && e.kind == Reg && e.path in t
    ensures !Clear(es, e)
  {
    assert Named(es, e.path);
    var f :| f in es && e.path <= f.path;
    assert Clash(f, e);
  }

  lemma NamedMore(es: seq<Item>, e: Item, p: Path)
    ensures Named(es + [e], p) <==> Named(es, p) || (p != [] && p <= e.path)
  {
    if Named(es, p) {
      var f :| f in es && p <= f.path;
      assert f in es + [e];
    }
    if p != [] && p <= e.path {
      assert e in es + [e];
    }
  }

  lemma FileAtMore(es: seq<Item>, e: Item, p: Path, d: Bytes)
    ensures FileAt(es + [e], p, d) <==> FileAt(es, p, d) || (e.kind == Reg && e.path == p && e.data == d)
  {
    if FileAt(es, p, d) {
      var f :| f in es && f.kind == Reg && f.path == p && f.data == d;
      assert f in es + [e];
    }
    if e.kind == Reg && e.path == p && e.data == d {
      assert e in es + [e];
    }
  }

  lemma PrefixIn(parts: Path, p: Path)
    ensures p in (set k | 0 < k <= |parts| :: parts[..k]) <==> p != [] && p <= parts
  {
    if p != [] && p <= parts {
      assert p == parts[..|p|];
    }
  }

  lemma DenotesDir(es: seq<Item>, t: Tree, e: Item)
    requires Denotes(es, t) && e.kind == Dir && !Blocked(t, e.path)
    ensures Denotes(es + [e], WithDirs(t, e.path))
  {
    var t' := WithDirs(t, e.path);
    forall p ensures p in t' <==> Named(es + [e], p) {
      NamedMore(es, e, p);
      PrefixIn(e.path, p);
    }
    forall p, d | p in t' ensures t'[p] == FileNode(d) <==> FileAt(es + [e], p, d) {
      FileAtMore(es, e, p, d);
      if p !in t {
        FileNamed(es, p, d);
      }
    }
  }

  lemma FileNamed(es: seq<Item>, p: Path, d: Bytes)
    ensures FileAt(es, p, d) && p != [] ==> Named(es, p)
  {
    if FileAt(es, p, d) && p != [] {
      var f :| f in es && f.kind == Reg && f.path == p && f.data == d;
      assert p <= f.path;
    }
  }

  lemma DenotesFile(es: seq<Item>, t: Tree, e: Item)
    requires Denotes(es, t) && e.kind == Reg && e.path != []
    requires var parent := e.path[..|e.path| - 1]; !Blocked(t, parent) && e.path !in WithDirs(t, parent)
    ensures var parent := e.path[..|e.path| - 1];
            Denotes(es + [e], WithDirs(t, parent)[e.path := FileNode(e.data)])
  {
    var path := e.path;
    var parent := path[..|path| - 1];
    var t' := WithDirs(t, parent)[path := FileNode(e.data)];
    forall p ensures p in t' <==> Named(es + [e], p) {
      NamedMore(es, e, p);
      PrefixIn(parent, p);
      if p <= path && p != path {
        assert p <= parent;
      }
    }
    forall p, d | p in t' ensures t'[p] == FileNode(d) <==> FileAt(es + [e], p, d) {
      FileAtMore(es, e, p, d);
      if p !in t {
        FileNamed(es, p, d);
      }
    }
  }

  // ---------- the loop ----------

  datatype Report = Report(files: int, dirs: int, bytes: int)

  ghost function ReportOf(es: seq<Item>): Report {
    Report(Sum(es, OneFile), Sum(es, OneDir), Total(es))
  }

  /** The map of joined names already met. */
  ghost predicate SeenSoFar(seen: set<string>, es: seq<Entry>) {
    && (forall e :: e in es ==> Join(PathOf(e.name), '/') in seen)
    && (forall s :: s in seen ==> exists e :: e in es && Join(PathOf(e.name), '/') == s)
  }

  function Limit(maxEntries: int): nat {
    if maxEntries <= 0 then DEFAULT_MAX_ENTRIES else maxEntries
  }

  ghost predicate Int64Sizes(es: seq<Entry>) {
    forall e :: e in es ==> -MAX_INT64 - 1 <= e.size <= MAX_INT64
  }

  ghost predicate Clear(es: seq<Item>, e: Item) {
    forall f :: f in es ==> !Clash(f, e)
  }

  lemma SeenIffRepeated(seen: set<string>, es: seq<Entry>, e: Entry)
    requires SeenSoFar(seen, es) && PathOf(e.name) != []
    requires forall f :: f in Items(es) ==> Fits(f)
    ensures Join(PathOf(e.name), '/') in seen <==> Met(Items(es), PathOf(e.name))
  {
    if Join(PathOf(e.name), '/') in seen {
      var f :| f in es && Join(PathOf(f.name), '/') == Join(PathOf(e.name), '/');
      var i :| 0 <= i < |es| && es[i] == f;
      assert Items(es)[i] == ItemOf(f);
      JoinTellsApart(f.name, e.name);
      assert ItemOf(f) in Items(es);
    }
    if f :| f in Items(es) && f.path == PathOf(e.name) {
      var i :| 0 <= i < |es| && ItemOf(es[i]) == f;
      assert es[i] in es;
    }
  }

  lemma SeenMore(seen: set<string>, es: seq<Entry>, e: Entry)
    requires SeenSoFar(seen, es)
    ensures SeenSoFar(seen + {Join(PathOf(e.name), '/')}, es + [e])
  {
    var all := es + [e];
    assert e in all;
    forall s | s in seen ensures exists f :: f in all && Join(PathOf(f.name), '/') == s {
      var f :| f in es && Join(PathOf(f.name), '/') == s;
      assert f in all;
    }
  }

  /** A next entry that does not fit spoils the whole tar. */
  lemma NextRefused(es: seq<Item>, k: nat, maxBytes: nat, maxEntries: nat)
    requires k < |es|
    requires k + 1 > maxEntries || !Fits(es[k]) || !Clear(es[..k], es[k])
    ensures !Sound(es, maxBytes, maxEntries)
  {
    assert es[k] in es;
  }

  lemma OverBound(es: seq<Item>, k: nat, maxBytes: nat, maxEntries: nat)
    requires k < |es| && maxBytes < Total(es[..k + 1])
    ensures !Sound(es, maxBytes, maxEntries)
  {
    if forall e :: e in es ==> Fits(e) {
      TotalMonotone(es, k + 1);
    }
  }

  /** The wrapped sum of two uint64 values, one an int64, fails the check
      exactly when the true sum is past the bound. */
  lemma WrapCheck(bytes: nat, size: nat, maxBytes: nat)
    requires bytes <= maxBytes < U64 && size <= MAX_INT64
    ensures var sum := (bytes + size) % U64;
            && (sum < bytes || sum > maxBytes <==> bytes + size > maxBytes)
            && (bytes + size <= maxBytes ==> sum == bytes + size)
  {
    if bytes + size >= U64 {
      assert (bytes + size) % U64 == bytes + size - U64;
    }
  }

  lemma SoundMore(es: seq<Item>, e: Item, maxBytes: nat, maxEntries: nat)
    requires Sound(es, maxBytes, maxEntries) && |es| < maxEntries && Fits(e) && Clear(es, e)
    requires Total(es + [e]) <= maxBytes
    ensures Sound(es + [e], maxBytes, maxEntries)
  {
    var all := es + [e];
    forall i, j | 0 <= i < j < |all| ensures !Clash(all[i], all[j]) {
      assert all[i] in es;
    }
  }

  lemma FileStands(es: seq<Item>, t: Tree, f: Item, parts: Path)
    requires Denotes(es, t) && f in es && f.kind == Reg && f.path != [] && f.path <= parts
    ensures f.path in t && Blocked(t, parts)
  {
    assert f.path <= f.path;
    assert Named(es, f.path);
    assert FileAt(es, f.path, f.data);
    assert f.path == parts[..|f.path|];
  }

  /** Nothing earlier clashes with an entry that could be put in place. */
  lemma DirClear(es: seq<Item>, t: Tree, e: Item)
    requires Denotes(es, t) && e.kind == Dir && !Blocked(t, e.path)
    requires forall f :: f in es ==> f.path != [] && f.path != e.path
    ensures Clear(es, e)
  {
    forall f | f in es ensures !Clash(f, e) {
      if f.kind == Reg && f.path <= e.path {
        FileStands(es, t, f, e.path);
      }
    }
  }

  lemma FileClear(es: seq<Item>, t: Tree, e: Item)
    requires Denotes(es, t) && e.kind == Reg && e.path != [] && e.path !in t && !Blocked(t, e.path[..|e.path| - 1])
    requires forall f :: f in es ==> f.path != [] && f.path != e.path
    ensures Clear(es, e)
  {
    forall f | f in es ensures !Clash(f, e) {
      if f.kind == Reg && f.path <= e.path {
        assert f.path <= e.path[..|e.path| - 1];
        FileStands(es, t, f, e.path[..|e.path| - 1]);
      }
    }
    assert !Named(es, e.path);
  }

  lemma TotalsMore(es: seq<Item>, e: Item)
    ensures forall w: Item -> int :: Sum(es + [e], w) == Sum(es, w) + w(e)
  {
    assert (es + [e])[..|es|] == es;
  }

  lemma ParentShorter(t: Tree, path: Path)
    requires path != []
    ensures path in WithDirs(t, path[..|path| - 1]) <==> path in t
  {
    PrefixIn(path[..|path| - 1], path);
  }

  /** One directory entry, its path not met before. */
  method PlaceDir(ghost es: seq<Item>, t: Tree, e: Item) returns (r: Option<Tree>)
    requires Denotes(es, t) && e.kind == Dir && e.path != []
    requires forall f :: f in es ==> f.path != [] && f.path != e.path
    ensures r.Some? <==> Fits(e) && Clear(es, e)
    ensures r.Some? ==> Denotes(es + [e], r.value)
  {
    r := OpenBeneathMkdir(t, e.path);
    if r.None? {
      BlockedClashes(es, t, e, e.path);
    } else {
      DirClear(es, t, e);
      DenotesDir(es, t, e);
    }
  }

  /** One file entry, its path not met before. */
  method PlaceFile(ghost es: seq<Item>, t: Tree, e: Item) returns (r: Option<Tree>)
    requires Denotes(es, t) && e.kind == Reg && e.path != [] && 0 <= e.size <= MAX_INT64
    requires forall f :: f in es ==> f.path != [] && f.path != e.path
    ensures r.Some? <==> Fits(e) && Clear(es, e)
    ensures r.Some? ==> Denotes(es + [e], r.value)
  {
    var parent := e.path[..|e.path| - 1];
    r := OpenBeneathMkdir(t, parent);
    if r.None? {
      BlockedClashes(es, t, e, parent);
      return;
    }
    ParentShorter(t, e.path);
    if e.path in t {
      TakenClashes(es, t, e);
    } else {
      FileClear(es, t, e);
      DenotesFile(es, t, e);
    }
    r := WriteEntry(r.value, e.path, e);
  }

  /** One entry of any kind: the switch of Unpack's loop. `bytes` is the total
      before it, and the sum is taken in 64 bits. */
  method Place(ghost es: seq<Item>, t: Tree, e: Item, bytes: nat, maxBytes: nat) returns (r: Option<Tree>)
    requires Denotes(es, t) && e.path != [] && -MAX_INT64 - 1 <= e.size <= MAX_INT64
    requires forall f :: f in es ==> f.path != [] && f.path != e.path
    requires bytes == Total(es) <= maxBytes < U64
    ensures r.Some? <==> Fits(e) && Clear(es, e) && Total(es + [e]) <= maxBytes
    ensures r.Some? ==> Denotes(es + [e], r.value)
  {
    TotalsMore(es, e);
    match e.kind
    case Dir =>
      r := PlaceDir(es, t, e);
    case Reg =>
      if e.size < 0 {
        return None;
      }
      var sum := (bytes + e.size) % U64;
      WrapCheck(bytes, e.size, maxBytes);
      if sum < bytes || sum > maxBytes {
        return None;
      }
      r := PlaceFile(es, t, e);
    case Symlink =>
      r := None;
    case Other =>
      r := None;
  }

  /** What the loop carries from one entry to the next. */
  datatype Progress = Progress(seen: set<string>, tree: Tree, report: Report)

  ghost predicate Placed(items: seq<Item>, tree: Tree, report: Report, maxBytes: nat, limit: nat) {
    Tallied(report, items) && Sound(items, maxBytes, limit) && Denotes(items, tree)
  }

  ghost predicate UpTo(es: seq<Entry>, i: nat, p: Progress, maxBytes: nat, limit: nat) {
    i <= |es| && SeenSoFar(p.seen, es[..i]) && Placed(Items(es)[..i], p.tree, p.report, maxBytes, limit)
  }

  ghost predicate Met(items: seq<Item>, path: Path) {
    exists f :: f in items && f.path == path
  }

  /** One more item: it is put in place, or it does not go with the others. */
  method TakeItem(ghost items: seq<Item>, e: Item, seen: bool, tree: Tree, report: Report, maxBytes: nat, limit: nat)
    returns (r: Option<(Tree, Report)>)
    requires maxBytes < U64 && -MAX_INT64 - 1 <= e.size <= MAX_INT64 && |items| < limit
    requires e.path != [] && Placed(items, tree, report, maxBytes, limit) && (seen <==> Met(items, e.path))
    ensures match r
            case None => !Fits(e) || !Clear(items, e) || Total(items + [e]) > maxBytes
            case Some((t, rep)) => Placed(items + [e], t, rep, maxBytes, limit)
  {
    if seen {
      MetClashes(items, e);
      return None;
    }
    var placed := Place(items, tree, e, report.bytes, maxBytes);
    if placed.None? {
      return None;
    }
    SoundMore(items, e, maxBytes, limit);
    TotalsMore(items, e);
    var more := if e.kind == Dir then report.(dirs := report.dirs + 1)
                else report.(files := report.files + 1, bytes := report.bytes + e.size);
    r := Some((placed.value, more));
  }

  lemma MetClashes(items: seq<Item>, e: Item)
    requires Met(items, e.path)
    ensures !Clear(items, e)
  {
    var f :| f in items && f.path == e.path;
    assert Clash(f, e);
  }

  /** One turn of the loop: the entry is put in place, or the whole tar is refused. */
  method Turn(es: seq<Entry>, i: nat, p: Progress, maxBytes: nat, limit: nat) returns (r: Option<Progress>)
    requires maxBytes < U64 && Int64Sizes(es) && i < |es| && UpTo(es, i, p, maxBytes, limit)
    ensures match r
            case None => !Sound(Items(es), maxBytes, limit)
            case Some(q) => UpTo(es, i + 1, q, maxBytes, limit)
  {
    ghost var items := Items(es);
    var e := ItemOf(es[i]);
    Advance(es, i);
    if i + 1 > limit || e.path == [] {
      NextSpoils(items, i, maxBytes, limit);
      return None;
    }
    var key := Join(e.path, '/');
    SeenIffRepeated(p.seen, es[..i], es[i]);
    SeenMore(p.seen, es[..i], es[i]);
    var taken := TakeItem(items[..i], e, key in p.seen, p.tree, p.report, maxBytes, limit);
    if taken.None? {
      NextSpoils(items, i, maxBytes, limit);
      return None;
    }
    r := Some(Progress(p.seen + {key}, taken.value.0, taken.value.1));
  }

  /** Unpack: the entries the tar reader yields, then either a clean end or a
      reading error. It succeeds exactly on the tars that unpack, and then the
      staging directory holds exactly what they denote. */
  method Unpack(es: seq<Entry>, ended: bool, maxBytes: nat, maxEntries: int)
    returns (r: Option<Report>, tree: Tree)
    requires maxBytes < U64 && Int64Sizes(es)
    ensures r.Some? <==> ended && Sound(Items(es), maxBytes, if maxEntries <= 0 then 1_000_000 else maxEntries)
    ensures r.Some? ==> Denotes(Items(es), tree)
    ensures r.Some? ==> r.value == ReportOf(Items(es))
    ensures r.Some? ==> forall e :: e in es ==> PutBack(e, tree)
  {
    var limit, p := Limit(maxEntries), Progress({}, map[], Report(0, 0, 0));
    assert Items(es)[..0] == [] && es[..0] == [];
    for i := 0 to |es|
      invariant UpTo(es, i, p, maxBytes, limit)
    {
      var q := Turn(es, i, p, maxBytes, limit);
      if q.None? {
        return None, p.tree;
      }
      p := q.value;
    }
    assert Items(es)[..|es|] == Items(es);
    AllPutBack(es, p.tree, maxBytes, limit);
    return if ended then Some(p.report) else None, p.tree;
  }

  /** The entry stands in the tree: a whole file with its declared bytes, or a
      directory. */
  ghost predicate PutBack(e: Entry, t: Tree) {
    && PathOf(e.name) in t
    && match t[PathOf(e.name)]
       case FileNode(d) => e.kind == Reg && d == e.data && |d| == e.size && !e.broken
       case DirNode => e.kind == Dir
  }

  lemma AllPutBack(es: seq<Entry>, t: Tree, maxBytes: nat, limit: nat)
    requires Sound(Items(es), maxBytes, limit) && Denotes(Items(es), t)
    ensures forall e :: e in es ==> PutBack(e, t)
  {
    forall e | e in es ensures PutBack(e, t) {
      var i :| 0 <= i < |es| && es[i] == e;
      assert Items(es)[i] == ItemOf(e) && ItemOf(e) in Items(es);
      ItemPutBack(Items(es), t, i);
    }
  }

  lemma ItemPutBack(items: seq<Item>, t: Tree, i: nat)
    requires Denotes(items, t) && i < |items| && (forall e :: e in items ==> Fits(e))
    requires forall i, j :: 0 <= i < j < |items| ==> !Clash(items[i], items[j])
    ensures var e := items[i];
            && e.path in t && Fits(e) && (e.kind == Reg ==> t[e.path] == FileNode(e.data))
            && (e.kind == Dir ==> t[e.path].DirNode?)
  {
    var e := items[i];
    assert e in items && e.path <= e.path;
    assert Named(items, e.path);
    if e.kind == Reg {
      assert FileAt(items, e.path, e.data);
    } else {
      match t[e.path]
      case DirNode =>
      case FileNode(d) =>
        assert FileAt(items, e.path, d);
        var f :| f in items && f.kind == Reg && f.path == e.path && f.data == d;
        var j :| 0 <= j < |items| && items[j] == f;
        assert Clash(items[i], items[j]) && Clash(items[j], items[i]);
    }
  }

  ghost predicate Tallied(report: Report, es: seq<Item>) {
    report == ReportOf(es) && report.bytes >= 0
  }

  lemma Advance(es: seq<Entry>, i: nat)
    requires i < |es| && Int64Sizes(es)
    ensures var items, e := Items(es), ItemOf(es[i]);
            && items[..i + 1] == items[..i] + [e] && es[..i + 1] == es[..i] + [es[i]]
            && Items(es[..i]) == items[..i] && items[i] == e
            && -MAX_INT64 - 1 <= e.size <= MAX_INT64
  {
    assert es[i] in es;
    assert Items(es)[..i + 1] == Items(es)[..i] + [ItemOf(es[i])];
  }

  lemma NextSpoils(es: seq<Item>, k: nat, maxBytes: nat, maxEntries: nat)
    requires k < |es|
    requires k + 1 > maxEntries || !Fits(es[k]) || !Clear(es[..k], es[k]) || Total(es[..k + 1]) > maxBytes
    ensures !Sound(es, maxBytes, maxEntries)
  {
    if Total(es[..k + 1]) > maxBytes {
      OverBound(es, k, maxBytes, maxEntries);
    } else {
      NextRefused(es, k, maxBytes, maxEntries);
    }
  }

  // ---------- order does not matter ----------

  ghost predicate Permuted(es: seq<Item>, fs: seq<Item>) {
    multiset(es) == multiset(fs)
  }

  lemma PermutedIn(es: seq<Item>, fs: seq<Item>, e: Item)
    requires Permuted(es, fs)
    ensures e in es <==> e in fs
  {
    assert e in es <==> e in multiset(es);
    assert e in fs <==> e in multiset(fs);
  }

  lemma {:induction false} SumWithout(es: seq<Item>, k: nat, w: Item -> int)
    requires k < |es|
    ensures Sum(es, w) == Sum(es[..k] + es[k + 1..], w) + w(es[k])
    decreases |es|
  {
    if k == |es| - 1 {
      assert es[..k] + es[k + 1..] == es[..k];
    } else {
      var init := es[..|es| - 1];
      SumWithout(init, k, w);
      var rest := es[..k] + es[k + 1..];
      assert rest[..|rest| - 1] == init[..k] + init[k + 1..];
    }
  }

  lemma BagWithout<T>(es: seq<T>, fs: seq<T>, k: nat)
    requires multiset(es) == multiset(fs) && es != [] && k < |fs| && fs[k] == es[|es| - 1]
    ensures multiset(es[..|es| - 1]) == multiset(fs[..k] + fs[k + 1..])
  {
    BagDrop(es, |es| - 1);
    BagDrop(fs, k);
    assert es[..|es| - 1] + es[|es|..] == es[..|es| - 1];
    BagCancel(multiset(es[..|es| - 1]), multiset(fs[..k] + fs[k + 1..]), fs[k]);
  }

  lemma BagDrop<T>(s: seq<T>, k: nat)
    requires k < |s|
    ensures multiset(s) == multiset(s[..k] + s[k + 1..]) + multiset{s[k]}
  {
    assert s == s[..k] + [s[k]] + s[k + 1..];
    BagShift(s[..k], s[k], s[k + 1..]);
  }

  lemma BagCancel<T>(a: multiset<T>, b: multiset<T>, x: T)
    requires a + multiset{x} == b + multiset{x}
    ensures a == b
  {
    assert a == a + multiset{x} - multiset{x};
  }

  lemma BagShift<T>(l: seq<T>, x: T, r: seq<T>)
    ensures multiset(l + [x] + r) == multiset(l + r) + multiset{x}
  {
  }

  lemma {:induction false} SumPermuted(es: seq<Item>, fs: seq<Item>, w: Item -> int)
    requires Permuted(es, fs)
    ensures Sum(es, w) == Sum(fs, w) && |es| == |fs|
    decreases |es|
  {
    assert |es| == |multiset(es)| && |fs| == |multiset(fs)|;
    if es != [] {
      var n := |es| - 1;
      PermutedIn(es, fs, es[n]);
      var k :| 0 <= k < |fs| && fs[k] == es[n];
      BagWithout(es, fs, k);
      SumPermuted(es[..n], fs[..k] + fs[k + 1..], w);
      SumWithout(fs, k, w);
    }
  }

  /** A repeated entry shows in the multiset, and a clash of distinct entries in
      the set: pairwise compatibility depends on the bag alone. */
  lemma Twice(es: seq<Item>, i: nat, j: nat)
    requires i < j < |es| && es[i] == es[j]
    ensures multiset(es)[es[i]] >= 2
  {
    assert es == es[..j] + es[j..];
    assert es[i] in es[..j] && es[j] in es[j..];
    assert multiset(es) == multiset(es[..j]) + multiset(es[j..]);
  }

  lemma TwiceAt(es: seq<Item>, e: Item) returns (i: nat, j: nat)
    requires multiset(es)[e] >= 2
    ensures i < j < |es| && es[i] == e == es[j]
  {
    var a :| 0 <= a < |es| && es[a] == e;
    var l, r := es[..a], es[a + 1..];
    assert es == l + [e] + r;
    assert multiset(es) == multiset(l) + multiset{e} + multiset(r);
    if e in l {
      i :| 0 <= i < a && es[i] == e;
      j := a;
    } else {
      assert e in multiset(r);
      var b :| 0 <= b < |r| && r[b] == e;
      i, j := a, a + 1 + b;
    }
  }

  lemma SoundPermuted(es: seq<Item>, fs: seq<Item>, maxBytes: nat, maxEntries: nat)
    requires Permuted(es, fs) && Sound(es, maxBytes, maxEntries)
    ensures Sound(fs, maxBytes, maxEntries)
  {
    SumPermuted(es, fs, SizeOf);
    forall e | e in fs ensures Fits(e) {
      PermutedIn(es, fs, e);
    }
    forall i, j | 0 <= i < j < |fs| ensures !Clash(fs[i], fs[j]) {
      PermutedIn(es, fs, fs[i]);
      PermutedIn(es, fs, fs[j]);
      if fs[i] == fs[j] {
        Twice(fs, i, j);
        var a, b := TwiceAt(es, fs[i]);
      } else {
        var a :| 0 <= a < |es| && es[a] == fs[i];
        var b :| 0 <= b < |es| && es[b] == fs[j];
        assert !Clash(es[if a < b then a else b], es[if a < b then b else a]);
      }
    }
  }

  lemma DenotesPermuted(es: seq<Item>, fs: seq<Item>, t: Tree, u: Tree)
    requires Permuted(es, fs) && Denotes(es, t) && Denotes(fs, u)
    ensures t == u
  {
    forall e ensures e in es <==> e in fs {
      PermutedIn(es, fs, e);
    }
    forall p ensures Named(es, p) <==> Named(fs, p) {
    }
    forall p | p in t ensures t[p] == u[p] {
      assert Named(es, p) && Named(fs, p) && p in u;
      forall d ensures FileAt(es, p, d) <==> FileAt(fs, p, d) {
      }
      match t[p]
      case FileNode(d) =>
        assert FileAt(es, p, d);
      case DirNode =>
        match u[p]
        case FileNode(d) =>
          assert FileAt(fs, p, d);
        case DirNode =>
    }
  }

  /** Whatever order a tar lists its entries in, unpacking it succeeds or fails
      alike, and every tree and total it can leave is the same one. */
  lemma OrderIrrelevant(es: seq<Item>, fs: seq<Item>, maxBytes: nat, maxEntries: nat)
    requires Permuted(es, fs)
    ensures Sound(es, maxBytes, maxEntries) <==> Sound(fs, maxBytes, maxEntries)
    ensures ReportOf(es) == ReportOf(fs)
    ensures forall t, u :: Denotes(es, t) && Denotes(fs, u) ==> t == u
  {
    if Sound(es, maxBytes, maxEntries) {
      SoundPermuted(es, fs, maxBytes, maxEntries);
    }
    if Sound(fs, maxBytes, maxEntries) {
      SoundPermuted(fs, es, maxBytes, maxEntries);
    }
    SumPermuted(es, fs, SizeOf);
    SumPermuted(es, fs, OneFile);
    SumPermuted(es, fs, OneDir);
    forall t, u | Denotes(es, t) && Denotes(fs, u) ensures t == u {
      DenotesPermuted(es, fs, t, u);
    }
  }

  /** The same holds of the names as written. */
  lemma {:induction false} ItemsPermuted(es: seq<Entry>, fs: seq<Entry>)
    requires multiset(es) == multiset(fs)
    ensures Permuted(Items(es), Items(fs))
    decreases |es|
  {
    assert |es| == |multiset(es)| && |fs| == |multiset(fs)|;
    if es == [] {
      assert Items(es) == Items(fs);
    } else {
      var n := |es| - 1;
      assert es[n] in multiset(fs);
      var k :| 0 <= k < |fs| && fs[k] == es[n];
      BagWithout(es, fs, k);
      ItemsPermuted(es[..n], fs[..k] + fs[k + 1..]);
      ItemsSplit(es, n);
      ItemsSplit(fs, k);
      assert es[..n] + es[n + 1..] == es[..n];
    }
  }

  lemma ItemsSplit(es: seq<Entry>, k: nat)
    requires k < |es|
    ensures multiset(Items(es)) == multiset(Items(es[..k] + es[k + 1..])) + multiset{ItemOf(es[k])}
  {
    var l, r := es[..k], es[k + 1..];
    assert es == l + [es[k]] + r;
    ItemsConcat(l + [es[k]], r);
    ItemsConcat(l, [es[k]]);
    ItemsConcat(l, r);
    assert Items([es[k]]) == [ItemOf(es[k])];
    BagShift(Items(l), ItemOf(es[k]), Items(r));
  }

  lemma ItemsConcat(l: seq<Entry>, r: seq<Entry>)
    ensures Items(l + r) == Items(l) + Items(r)
  {
  }
}
