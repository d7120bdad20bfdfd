// fs/fs.c: what a path resolves to on a directory tree, and the way back from a directory to its path.
module PathSearch {
  import opened Options
  import opened Paths

  datatype FileType = Regular | Directory

  datatype Entry = Entry(name: string, ino: nat, ftype: FileType)

  // Every directory's entries in slot order, '.' and '..' first.
  datatype Fs = Fs(dirs: map<nat, seq<Entry>>)

  const ROOT: nat := 0
  const MAX_INODES := 4096

  // search_dir_entry: the first entry of that name.
  function Lookup(entries: seq<Entry>, name: string): (r: Option<Entry>)
    ensures r.Some? ==> r.value in entries && r.value.name == name
    ensures r.None? ==> forall e :: e in entries ==> e.name != name
  {
    if entries == [] then None
    else if entries[0].name == name then Some(entries[0])
    else Lookup(entries[1..], name)
  }

  predicate IsDot(e: Entry) {
    e.name in {".", ".."}
  }

  // Entry e, neither '.' nor '..', stands in directory d.
  ghost predicate Holds(fs: Fs, d: nat, e: Entry) {
    d in fs.dirs && e in fs.dirs[d] && !IsDot(e)
  }

  // A directory tree: depth counts the directories above, names are unique in their directory, every
  // inode but the root has one entry, and '.' and '..' are where file_create and sys_mkdir put them.
  ghost predicate Tree(fs: Fs, depth: map<nat, nat>) {
    && depth.Keys == fs.dirs.Keys && ROOT in depth && depth[ROOT] == 0
    && (forall d {:trigger DirFits(fs, d)} :: d in fs.dirs ==> DirFits(fs, d))
    && (forall d, e {:trigger EntryFits(fs, depth, d, e)} :: Holds(fs, d, e) ==> EntryFits(fs, depth, d, e))
    && (forall d1, e1, d2, e2 :: Holds(fs, d1, e1) && Holds(fs, d2, e2) && e1.ino == e2.ino ==> d1 == d2 && e1 == e2)
  }

  ghost predicate DirFits(fs: Fs, d: nat)
    requires d in fs.dirs
  {
    var s := fs.dirs[d];
    && d < MAX_INODES && |s| >= 2 && s[0] == Entry(".", d, Directory) && s[1].name == ".." && s[1].ftype == Directory
        && s[1].ino in fs.dirs
    && (d == ROOT ==> s[1].ino == ROOT)
    && (d != ROOT ==> exists e :: Holds(fs, s[1].ino, e) && e.ino == d && e.ftype == Directory)
    && (forall i, j :: 0 <= i < j < |s| ==> s[i].name != s[j].name)
  }

  ghost predicate EntryFits(fs: Fs, depth: map<nat, nat>, d: nat, e: Entry)
    requires depth.Keys == fs.dirs.Keys && Holds(fs, d, e)
  {
    && IsName(e.name) && |e.name| < MAX_FILE_NAME_LEN && e.ino != ROOT
    && (e.ftype == Directory <==> e.ino in fs.dirs)
    && (e.ftype == Directory ==>
        depth[e.ino] == depth[d] + 1 && fs.dirs[e.ino] != [] && |fs.dirs[e.ino]| >= 2 && fs.dirs[e.ino][1].ino == d)
  }

  // ---- search_file ----

  // Found: the inode, its type and the directory its entry stands in.
  datatype Search = Missing(parent: nat) | Found(ino: nat, ftype: FileType, parent: nat)

  // The loop of search_file, standing in directory d whose own entry stands in up. It stops at the
  // first regular file, whatever components are left.
  function Walk(fs: Fs, up: nat, d: nat, parts: seq<string>): Search
    decreases |parts|
  {
    if parts == [] then Found(d, Directory, up)
    else if d !in fs.dirs then Missing(d)
    else
      match Lookup(fs.dirs[d], parts[0])
      case None => Missing(d)
      case Some(e) => if e.ftype == Regular then Found(e.ino, Regular, d) else Walk(fs, d, e.ino, parts[1..])
  }

  // search_file. A path that has slashes only and is not "/" never enters the loop, and what is
  // returned for it is whatever was on the stack.
  function SearchFile(fs: Fs, p: string): Search
    requires p == "/" || Parts(p) != []
  {
    if p == "/" || p == "/." || p == "/.." then Found(ROOT, Directory, ROOT)
    else Walk(fs, ROOT, ROOT, Parts(p))
  }

  method FollowPath(fs: Fs, pathname: string) returns (r: Search)
    requires pathname == "/" || (Parts(pathname) != [] && pathname[0] == '/' && NamesFit(pathname))
    requires |pathname| < MAX_PATH_LEN
    ensures r == SearchFile(fs, pathname)
  {
    if pathname == "/" || pathname == "/." || pathname == "/.." {
      return Found(ROOT, Directory, ROOT);
    }
    assert pathname[0] == '/' && 1 < |pathname| < MAX_PATH_LEN by {
      assert pathname == "/" + pathname[1..];
    }
    var parentDir, upDir := ROOT, ROOT;
    var name, subPath := PathParse(pathname);
    ghost var left := Parts(pathname);
    while name != ""
      invariant left == Left(name, subPath) && (left != [] <==> name != "") && (left != [] ==> left[0] == name)
      invariant Walk(fs, ROOT, ROOT, Parts(pathname)) == Walk(fs, upDir, parentDir, left)
      decreases |left|
    {
      if parentDir !in fs.dirs {
        return Missing(parentDir);
      }
      var e := SearchDirEntry(fs.dirs[parentDir], name);
      if e.None? {
        return Missing(parentDir);
      }
      if e.value.ftype == Regular {
        return Found(e.value.ino, Regular, parentDir);
      }
      name, subPath := NextName(subPath);
      left := left[1..];
      upDir := parentDir;
      parentDir := e.value.ino;
    }
    return Found(parentDir, Directory, upDir);
  }

  method SearchDirEntry(entries: seq<Entry>, name: string) returns (r: Option<Entry>)
    ensures r == Lookup(entries, name)
  {
    var i := 0;
    while i < |entries|
      invariant 0 <= i <= |entries| && Lookup(entries, name) == Lookup(entries[i..], name)
    {
      assert entries[i..][1..] == entries[i + 1..];
      if entries[i].name == name {
        return Some(entries[i]);
      }
      i := i + 1;
    }
    return None;
  }

  // ---- walking: one component more ----

  lemma {:induction false} WalkAppend(fs: Fs, up: nat, d: nat, a: seq<string>, b: seq<string>)
    ensures var w := Walk(fs, up, d, a);
      Walk(fs, up, d, a + b) == if w.Found? && w.ftype == Directory then Walk(fs, w.parent, w.ino, b) else w
    decreases |a|
  {
    if a == [] {
      assert a + b == b;
    } else if d in fs.dirs && Lookup(fs.dirs[d], a[0]).Some? {
      var e := Lookup(fs.dirs[d], a[0]).value;
      assert (a + b)[0] == a[0] && (a + b)[1..] == a[1..] + b;
      if e.ftype == Directory {
        WalkAppend(fs, d, e.ino, a[1..], b);
      }
    } else {
      assert (a + b)[0] == a[0];
    }
  }

  // The components parts reach directory x from the root.
  ghost predicate Reaches(fs: Fs, parts: seq<string>, x: nat) {
    var w := Walk(fs, ROOT, ROOT, parts);
    w.Found? && w.ftype == Directory && w.ino == x
  }

  lemma ReachesStep(fs: Fs, parts: seq<string>, c: string, d: nat)
    requires Reaches(fs, parts, d)
    ensures var w := Walk(fs, ROOT, ROOT, parts + [c]);
      if d !in fs.dirs then w == Missing(d)
      else match Lookup(fs.dirs[d], c)
        case None => w == Missing(d)
        case Some(e) => w == Found(e.ino, e.ftype, d)
  {
    WalkAppend(fs, ROOT, ROOT, parts, [c]);
    if d in fs.dirs && Lookup(fs.dirs[d], c).Some? {
      assert [c][1..] == [];
    }
  }

  // Directory entries lead to directories.
  ghost predicate Closed(fs: Fs) {
    ROOT in fs.dirs && forall d, e :: d in fs.dirs && e in fs.dirs[d] && e.ftype == Directory ==> e.ino in fs.dirs
  }

  lemma TreeIsClosed(fs: Fs, depth: map<nat, nat>)
    requires Tree(fs, depth)
    ensures Closed(fs)
  {
    forall d, e | d in fs.dirs && e in fs.dirs[d] && e.ftype == Directory
      ensures e.ino in fs.dirs
    {
      DotOrHeld(fs, depth, d, e);
    }
  }

  lemma {:induction false} ReachedIsDir(fs: Fs, parts: seq<string>, x: nat)
    requires Closed(fs) && Reaches(fs, parts, x)
    ensures x in fs.dirs
    decreases |parts|
  {
    if parts != [] {
      var init, c := parts[..|parts| - 1], parts[|parts| - 1];
      assert parts == init + [c];
      var d := Before(fs, parts);
      ReachedIsDir(fs, init, d);
      ReachesStep(fs, init, c, d);
    }
  }

  // The directory a successful walk stood in before its last component.
  lemma Before(fs: Fs, parts: seq<string>) returns (d: nat)
    requires parts != [] && Walk(fs, ROOT, ROOT, parts).Found? && Walk(fs, ROOT, ROOT, parts).ftype == Directory
    ensures Reaches(fs, parts[..|parts| - 1], d)
  {
    var init, c := parts[..|parts| - 1], parts[|parts| - 1];
    assert parts == init + [c];
    WalkAppend(fs, ROOT, ROOT, init, [c]);
    d := Walk(fs, ROOT, ROOT, init).ino;
  }

  // ---- what a walk means, by the entries it goes through ----

  // t are the directories from d on that the components lead to, each by its entry in the one before.
  ghost predicate Trail(fs: Fs, d: nat, parts: seq<string>, t: seq<nat>) {
    && 1 <= |t| <= |parts| + 1 && t[0] == d
    && forall i :: 0 <= i < |t| - 1 ==> Leads(fs, t[i], parts[i], t[i + 1], Directory)
  }

  ghost predicate Leads(fs: Fs, d: nat, name: string, ino: nat, ftype: FileType) {
    d in fs.dirs && Entry(name, ino, ftype) in fs.dirs[d]
  }

  // The end of the trail explains the answer: all components were used up and the last directory is found,
  // or the next component is a regular file there, or has no entry there.
  ghost predicate Explains(fs: Fs, up: nat, parts: seq<string>, t: seq<nat>, w: Search)
    requires 1 <= |t| <= |parts| + 1
  {
    var k := |t| - 1;
    match w
    case Found(x, Directory, parent) => k == |parts| && x == t[k] && parent == if k == 0 then up else t[k - 1]
    case Found(x, Regular, parent) => k < |parts| && parent == t[k] && Leads(fs, t[k], parts[k], x, Regular)
    case Missing(parent) =>
      k < |parts| && parent == t[k] && t[k] in fs.dirs && forall e :: e in fs.dirs[t[k]] ==> e.name != parts[k]
  }

  // Every answer of the loop of search_file has such a trail,
  lemma {:induction false} WalkHasTrail(fs: Fs, up: nat, d: nat, parts: seq<string>) returns (t: seq<nat>)
    requires Closed(fs) && d in fs.dirs
    ensures Trail(fs, d, parts, t) && Explains(fs, up, parts, t, Walk(fs, up, d, parts))
    decreases |parts|
  {
    t := [d];
    if parts != [] && Lookup(fs.dirs[d], parts[0]).Some? {
      var e := Lookup(fs.dirs[d], parts[0]).value;
      assert e == Entry(parts[0], e.ino, e.ftype);
      if e.ftype == Directory {
        var rest := WalkHasTrail(fs, d, e.ino, parts[1..]);
        t := [d] + rest;
        TrailOn(fs, up, d, parts, rest, Walk(fs, up, d, parts));
      }
    }
  }

  lemma TrailOn(fs: Fs, up: nat, d: nat, parts: seq<string>, rest: seq<nat>, w: Search)
    requires parts != [] && rest != [] && Leads(fs, d, parts[0], rest[0], Directory)
    ensures Trail(fs, d, parts, [d] + rest) <==> Trail(fs, rest[0], parts[1..], rest)
    ensures |rest| <= |parts| ==> (Explains(fs, up, parts, [d] + rest, w) <==> Explains(fs, d, parts[1..], rest, w))
  {
    var t := [d] + rest;
    if Trail(fs, d, parts, t) {
      forall i | 0 <= i < |rest| - 1
        ensures Leads(fs, rest[i], parts[1..][i], rest[i + 1], Directory)
      {
        assert Leads(fs, t[i + 1], parts[i + 1], t[i + 2], Directory);
      }
    }
    if Trail(fs, rest[0], parts[1..], rest) {
      forall i | 0 <= i < |t| - 1
        ensures Leads(fs, t[i], parts[i], t[i + 1], Directory)
      {
        assert i > 0 ==> Leads(fs, rest[i - 1], parts[1..][i - 1], rest[i], Directory);
      }
    }
    EndOn(fs, up, d, parts, rest, w);
  }

  lemma EndOn(fs: Fs, up: nat, d: nat, parts: seq<string>, rest: seq<nat>, w: Search)
    requires parts != [] && rest != []
    ensures |rest| <= |parts| ==> (Explains(fs, up, parts, [d] + rest, w) <==> Explains(fs, d, parts[1..], rest, w))
  {
    var k := |rest| - 1;
    assert ([d] + rest)[k + 1] == rest[k] && ([d] + rest)[k] == if k == 0 then d else rest[k - 1];
    assert k < |parts| - 1 ==> parts[1..][k] == parts[k + 1];
  }

  ghost predicate UniqueNames(fs: Fs) {
    forall d :: d in fs.dirs ==> forall i, j :: 0 <= i < j < |fs.dirs[d]| ==> fs.dirs[d][i].name != fs.dirs[d][j].name
  }

  lemma LeadsIsLookup(fs: Fs, d: nat, name: string, ino: nat, ftype: FileType)
    requires UniqueNames(fs) && Leads(fs, d, name, ino, ftype)
    ensures Lookup(fs.dirs[d], name) == Some(Entry(name, ino, ftype))
  {
    var e := Lookup(fs.dirs[d], name);
    assert Entry(name, ino, ftype) in fs.dirs[d];
    var i :| 0 <= i < |fs.dirs[d]| && fs.dirs[d][i] == Entry(name, ino, ftype);
    var j :| 0 <= j < |fs.dirs[d]| && fs.dirs[d][j] == e.value;
    assert !(i < j) && !(j < i);
  }

  // and where names are unique the answer of any trail is the answer of the loop.
  lemma {:induction false} TrailIsWalk(fs: Fs, up: nat, d: nat, parts: seq<string>, t: seq<nat>, w: Search)
    requires UniqueNames(fs) && Trail(fs, d, parts, t) && Explains(fs, up, parts, t, w)
    ensures w == Walk(fs, up, d, parts)
    decreases |parts|
  {
    if |t| > 1 {
      LeadsIsLookup(fs, d, parts[0], t[1], Directory);
      assert t == [d] + t[1..];
      TrailOn(fs, up, d, parts, t[1..], w);
      TrailIsWalk(fs, d, t[1], parts[1..], t[1..], w);
    } else if w.Found? && w.ftype == Regular {
      LeadsIsLookup(fs, d, parts[0], w.ino, Regular);
    }
  }

  // What an entry leads to: '.' stays, '..' goes to the parent, a name goes down.
  lemma DotOrHeld(fs: Fs, depth: map<nat, nat>, d: nat, e: Entry)
    requires Tree(fs, depth) && d in fs.dirs && e in fs.dirs[d]
    ensures |fs.dirs[d]| >= 2
    ensures e.name == "." ==> e == Entry(".", d, Directory)
    ensures e.name == ".." ==> e == fs.dirs[d][1]
    ensures !IsDot(e) ==> Holds(fs, d, e) && EntryFits(fs, depth, d, e)
    ensures e.ftype == Directory ==> e.ino in fs.dirs
    ensures IsDot(e) ==> e.ftype == Directory
  {
    assert DirFits(fs, d);
    if !IsDot(e) {
      assert Holds(fs, d, e);
    }
  }

  // The last step of a walk to a directory, with the entry it went through.
  lemma LastStep(fs: Fs, depth: map<nat, nat>, parts: seq<string>, x: nat) returns (d: nat, e: Entry)
    requires Tree(fs, depth) && parts != [] && Reaches(fs, parts, x)
    ensures Reaches(fs, parts[..|parts| - 1], d) && d in fs.dirs
    ensures Lookup(fs.dirs[d], parts[|parts| - 1]) == Some(e) && e.ino == x && e.ftype == Directory
  {
    TreeIsClosed(fs, depth);
    d, e := ClosedStep(fs, parts, x);
  }

  lemma ClosedStep(fs: Fs, parts: seq<string>, x: nat) returns (d: nat, e: Entry)
    requires Closed(fs) && parts != [] && Reaches(fs, parts, x)
    ensures Reaches(fs, parts[..|parts| - 1], d) && d in fs.dirs
    ensures Lookup(fs.dirs[d], parts[|parts| - 1]) == Some(e) && e.ino == x && e.ftype == Directory
  {
    var init, c := parts[..|parts| - 1], parts[|parts| - 1];
    assert parts == init + [c];
    d := Before(fs, parts);
    ReachedIsDir(fs, init, d);
    ReachesStep(fs, init, c, d);
    e := Lookup(fs.dirs[d], c).value;
  }

  // ---- cleaning a path keeps the directory it reaches ----

  // One component: if a clean stack reaches d, the stack after the component reaches where it leads.
  lemma EnterReaches(fs: Fs, depth: map<nat, nat>, stack: seq<string>, d: nat, e: Entry)
    requires Tree(fs, depth) && Clean(stack) && Reaches(fs, stack, d) && d in fs.dirs
    requires Lookup(fs.dirs[d], e.name) == Some(e) && e.ftype == Directory
    ensures Reaches(fs, Enter(stack, e.name), e.ino)
  {
    DotOrHeld(fs, depth, d, e);
    if e.name == ".." {
      EnterUp(fs, depth, stack, d);
    } else if e.name != "." {
      ReachesStep(fs, stack, e.name, d);
    }
  }

  // '..' leads back to the directory that the last component left.
  lemma EnterUp(fs: Fs, depth: map<nat, nat>, stack: seq<string>, d: nat)
    requires Tree(fs, depth) && Clean(stack) && Reaches(fs, stack, d) && d in fs.dirs && |fs.dirs[d]| >= 2
    ensures Reaches(fs, Enter(stack, ".."), fs.dirs[d][1].ino)
  {
    if stack == [] {
      assert DirFits(fs, ROOT);
    } else {
      var up, f := LastStep(fs, depth, stack, d);
      CleanLast(stack);
      DotOrHeld(fs, depth, up, f);
    }
  }

  lemma {:induction false} NormalReaches(fs: Fs, depth: map<nat, nat>, parts: seq<string>, x: nat)
    returns (stack: seq<string>)
    requires Tree(fs, depth) && Reaches(fs, parts, x) && AllNames(parts)
    ensures stack == Normal(parts) && Clean(stack) && Reaches(fs, stack, x)
    decreases |parts|
  {
    if parts == [] {
      return [];
    }
    var init, c := AllButLast(parts);
    var d, e := LastStep(fs, depth, parts, x);
    var before := NormalReaches(fs, depth, init, d);
    EnterReaches(fs, depth, before, d, e);
    stack := Enter(before, c);
  }

  lemma AllButLast(parts: seq<string>) returns (init: seq<string>, c: string)
    requires parts != [] && AllNames(parts)
    ensures init == parts[..|parts| - 1] && c == parts[|parts| - 1] && AllNames(init) && IsName(c)
    ensures Normal(parts) == Enter(Normal(init), c)
  {
    init, c := parts[..|parts| - 1], parts[|parts| - 1];
    assert c in parts;
  }

  predicate AllNames(parts: seq<string>) {
    forall c :: c in parts ==> IsName(c)
  }

  // ---- a directory, and a file, has one clean path ----

  lemma {:induction false} OneDirPath(fs: Fs, depth: map<nat, nat>, a: seq<string>, b: seq<string>, x: nat)
    requires Tree(fs, depth) && Clean(a) && Clean(b) && Reaches(fs, a, x) && Reaches(fs, b, x)
    ensures a == b
    decreases |a|
  {
    if a != [] && b != [] {
      var d, e := LastStep(fs, depth, a, x);
      var d', e' := LastStep(fs, depth, b, x);
      CleanLast(a);
      CleanLast(b);
      DotOrHeld(fs, depth, d, e);
      DotOrHeld(fs, depth, d', e');
      OneDirPath(fs, depth, a[..|a| - 1], b[..|b| - 1], d);
    } else if a != [] {
      NotToRoot(fs, depth, a);
    } else if b != [] {
      NotToRoot(fs, depth, b);
    }
  }

  lemma NotToRoot(fs: Fs, depth: map<nat, nat>, a: seq<string>)
    requires Tree(fs, depth) && Clean(a) && a != []
    ensures !Reaches(fs, a, ROOT)
  {
    if Reaches(fs, a, ROOT) {
      var d, e := LastStep(fs, depth, a, ROOT);
      CleanLast(a);
      DotOrHeld(fs, depth, d, e);
    }
  }

  // How many components the loop of search_file looks up.
  function Consumed(fs: Fs, d: nat, parts: seq<string>): (k: nat)
    ensures k <= |parts|
    decreases |parts|
  {
    if parts == [] || d !in fs.dirs || Lookup(fs.dirs[d], parts[0]).None? then 0
    else if Lookup(fs.dirs[d], parts[0]).value.ftype == Regular then 1
    else 1 + Consumed(fs, Lookup(fs.dirs[d], parts[0]).value.ino, parts[1..])
  }

  // A walk that ends at a regular file: the directory it ends in, and the file's entry there.
  lemma {:induction false} FileStep(fs: Fs, up: nat, d: nat, parts: seq<string>) returns (x: nat, e: Entry)
    requires Walk(fs, up, d, parts).Found? && Walk(fs, up, d, parts).ftype == Regular
    ensures var k := Consumed(fs, d, parts); var w := Walk(fs, up, d, parts[..k - 1]);
      && k > 0 && w.Found? && w.ftype == Directory && w.ino == x && x in fs.dirs
      && Lookup(fs.dirs[x], parts[k - 1]) == Some(e) && e.ftype == Regular
          && Walk(fs, up, d, parts) == Found(e.ino, Regular, x)
    decreases |parts|
  {
    var f := Lookup(fs.dirs[d], parts[0]).value;
    if f.ftype == Regular {
      x, e := d, f;
    } else {
      x, e := FileStep(fs, d, f.ino, parts[1..]);
      var k := Consumed(fs, f.ino, parts[1..]);
      assert parts[..k][0] == parts[0] && parts[..k][1..] == parts[1..][..k - 1];
    }
  }

  lemma {:induction false} AllConsumed(fs: Fs, up: nat, d: nat, parts: seq<string>)
    requires Walk(fs, up, d, parts).Found? && Walk(fs, up, d, parts).ftype == Directory
    ensures Consumed(fs, d, parts) == |parts|
    decreases |parts|
  {
    if parts != [] {
      AllConsumed(fs, d, Lookup(fs.dirs[d], parts[0]).value.ino, parts[1..]);
    }
  }

  lemma NormalSplit(parts: seq<string>, k: nat)
    requires 0 < k <= |parts| && AllNames(parts)
    ensures Normal(parts[..k]) == Enter(Normal(parts[..k - 1]), parts[k - 1])
    ensures Clean(Normal(parts[..k])) && Clean(Normal(parts[..k - 1]))
  {
    NormalIsClean(parts[..k]);
    NormalIsClean(parts[..k - 1]);
    assert parts[..k - 1] + [parts[k - 1]] == parts[..k];
  }

  // The normal form of what the walk consumed leads to the same regular file.
  lemma NormalToFile(fs: Fs, depth: map<nat, nat>, parts: seq<string>) returns (x: nat, e: Entry)
    requires Tree(fs, depth) && AllNames(parts)
    requires Walk(fs, ROOT, ROOT, parts).Found? && Walk(fs, ROOT, ROOT, parts).ftype == Regular
    ensures var k := Consumed(fs, ROOT, parts);
      && k > 0 && Normal(parts[..k]) == Normal(parts[..k - 1]) + [e.name] && Reaches(fs, Normal(parts[..k - 1]), x)
    ensures Holds(fs, x, e) && Lookup(fs.dirs[x], e.name) == Some(e) && e.ftype == Regular
    ensures Walk(fs, ROOT, ROOT, parts) == Found(e.ino, Regular, x)
  {
    x, e := FileStep(fs, ROOT, ROOT, parts);
    var k := Consumed(fs, ROOT, parts);
    DotOrHeld(fs, depth, x, e);
    var stack := NormalReaches(fs, depth, parts[..k - 1], x);
    NormalSplit(parts, k);
  }

  lemma FileByPrefix(fs: Fs, a: seq<string>, x: nat, e: Entry, b: seq<string>)
    requires Reaches(fs, a, x) && x in fs.dirs && Lookup(fs.dirs[x], e.name) == Some(e) && e.ftype == Regular
    requires a + [e.name] <= b
    ensures Walk(fs, ROOT, ROOT, b) == Found(e.ino, Regular, x)
  {
    ReachesStep(fs, a, e.name, x);
    assert b == a + [e.name] + b[|a| + 1..];
    WalkAppend(fs, ROOT, ROOT, a + [e.name], b[|a| + 1..]);
  }

  lemma FileNotDir(fs: Fs, depth: map<nat, nat>, x: nat, e: Entry, b: seq<string>)
    requires Tree(fs, depth) && Holds(fs, x, e) && e.ftype == Regular
    ensures !Reaches(fs, b, e.ino)
  {
    assert EntryFits(fs, depth, x, e);
    if Reaches(fs, b, e.ino) {
      TreeIsClosed(fs, depth);
      ReachedIsDir(fs, b, e.ino);
    }
  }

  lemma OneEntry(fs: Fs, depth: map<nat, nat>, x: nat, e: Entry, y: nat, f: Entry)
    requires Tree(fs, depth) && Holds(fs, x, e) && Holds(fs, y, f) && e.ino == f.ino
    ensures x == y && e == f
  {
  }

  lemma FileHeld(fs: Fs, depth: map<nat, nat>, b: seq<string>) returns (y: nat, f: Entry)
    requires Tree(fs, depth) && Clean(b) && Walk(fs, ROOT, ROOT, b).Found? && Walk(fs, ROOT, ROOT, b).ftype == Regular
    ensures var k := Consumed(fs, ROOT, b);
      && 0 < k <= |b| && b[..k] == b[..k - 1] + [f.name] && Reaches(fs, b[..k - 1], y) && Clean(b[..k - 1])
    ensures Holds(fs, y, f) && Walk(fs, ROOT, ROOT, b).ino == f.ino
  {
    y, f := FileStep(fs, ROOT, ROOT, b);
    var k := Consumed(fs, ROOT, b);
    CleanAt(b, k);
    DotOrHeld(fs, depth, y, f);
  }

  lemma CleanAt(b: seq<string>, k: nat)
    requires 0 < k <= |b| && Clean(b)
    ensures b[..k] == b[..k - 1] + [b[k - 1]] && b[k - 1] !in {".", ".."} && Clean(b[..k - 1])
  {
    CleanPrefix(b, k - 1);
    assert b[k - 1] in b;
  }

  lemma FileOnlyByPrefix(fs: Fs, depth: map<nat, nat>, a: seq<string>, x: nat, e: Entry, b: seq<string>)
    requires Tree(fs, depth) && Clean(a) && Clean(b) && Reaches(fs, a, x) && Holds(fs, x, e) && e.ftype == Regular
    requires Walk(fs, ROOT, ROOT, b).Found? && Walk(fs, ROOT, ROOT, b).ino == e.ino
    ensures a + [e.name] <= b
  {
    FileNotDir(fs, depth, x, e, b);
    var y, f := FileHeld(fs, depth, b);
    OneEntry(fs, depth, x, e, y, f);
    OneDirPath(fs, depth, a, b[..Consumed(fs, ROOT, b) - 1], x);
  }

  // ---- the two main results on cleaning ----

  lemma SearchIsWalk(fs: Fs, depth: map<nat, nat>, p: string)
    requires Tree(fs, depth) && (p == "/" || Parts(p) != [])
    ensures var s, w := SearchFile(fs, p), Walk(fs, ROOT, ROOT, Parts(p));
      (s.Found? <==> w.Found?) && (s.Found? ==> s.ino == w.ino && s.ftype == w.ftype)
  {
    if p == "/" {
      assert Skip("/") == Skip("/"[1..]);
    } else if p == "/." {
      PartsOfOne(".");
      DotsAtRoot(fs);
    } else if p == "/.." {
      PartsOfOne("..");
      DotsAtRoot(fs);
    }
  }

  lemma DotsAtRoot(fs: Fs)
    requires ROOT in fs.dirs && DirFits(fs, ROOT)
    ensures Walk(fs, ROOT, ROOT, ["."]) == Walk(fs, ROOT, ROOT, [".."]) == Found(ROOT, Directory, ROOT)
  {
    assert ["."][1..] == [] && [".."][1..] == [];
  }

  lemma PartsOfOne(c: string)
    requires IsName(c)
    ensures Parts("/" + c) == [c]
  {
    assert "/" + c + "" == "/" + c;
    PartsNext(c, "");
    assert [c] + Parts("") == [c];
  }

  // If search_file resolves p, it resolves the cleaned path to the same inode exactly when the normal
  // form of the components it looked up is a prefix of the normal form of all of them. The loop looks
  // up every component unless it meets a regular file first, so for a path through directories only
  // the meaning is always kept.
  lemma CleaningKeepsMeaning(fs: Fs, depth: map<nat, nat>, p: string)
    requires Tree(fs, depth) && p != "" && p[0] == '/' && Parts(p) != [] && SearchFile(fs, p).Found?
    ensures Wash(p) == "/" || Parts(Wash(p)) != []
    ensures var parts, r := Parts(p), SearchFile(fs, Wash(p));
      (r.Found? && r.ino == SearchFile(fs, p).ino) <==> Normal(parts[..Consumed(fs, ROOT, parts)]) <= Normal(parts)
    ensures SearchFile(fs, p).ftype == Directory ==>
      SearchFile(fs, Wash(p)).Found? && SearchFile(fs, Wash(p)).ino == SearchFile(fs, p).ino
  {
    var parts := Parts(p);
    NormalIsClean(parts);
    PartsOfRender(Normal(parts));
    SearchIsWalk(fs, depth, p);
    SearchIsWalk(fs, depth, Wash(p));
    if SearchFile(fs, p).ftype == Directory {
      var x := Walk(fs, ROOT, ROOT, parts).ino;
      DirMeaning(fs, depth, parts, x);
      AllLookedUp(fs, parts, x);
    } else {
      FileMeaning(fs, depth, parts);
    }
  }

  // In particular a path without '..' keeps its meaning.
  lemma WithoutDotDotMeaningIsKept(fs: Fs, depth: map<nat, nat>, p: string)
    requires Tree(fs, depth) && p != "" && p[0] == '/' && Parts(p) != [] && SearchFile(fs, p).Found?
    requires ".." !in Parts(p)
    ensures Wash(p) == "/" || Parts(Wash(p)) != []
    ensures SearchFile(fs, Wash(p)).Found? && SearchFile(fs, Wash(p)).ino == SearchFile(fs, p).ino
  {
    CleaningKeepsMeaning(fs, depth, p);
    NormalGrows(Parts(p), Consumed(fs, ROOT, Parts(p)));
  }

  lemma DirMeaning(fs: Fs, depth: map<nat, nat>, parts: seq<string>, x: nat)
    requires Tree(fs, depth) && AllNames(parts) && Reaches(fs, parts, x)
    ensures Reaches(fs, Normal(parts), x)
  {
    var stack := NormalReaches(fs, depth, parts, x);
  }

  lemma AllLookedUp(fs: Fs, parts: seq<string>, x: nat)
    requires Reaches(fs, parts, x)
    ensures Normal(parts[..Consumed(fs, ROOT, parts)]) <= Normal(parts)
  {
    AllConsumed(fs, ROOT, ROOT, parts);
    assert parts[..|parts|] == parts;
  }

  lemma FileMeaning(fs: Fs, depth: map<nat, nat>, parts: seq<string>)
    requires Tree(fs, depth) && AllNames(parts) && Clean(Normal(parts))
    requires Walk(fs, ROOT, ROOT, parts).Found? && Walk(fs, ROOT, ROOT, parts).ftype == Regular
    ensures var r := Walk(fs, ROOT, ROOT, Normal(parts));
      (r.Found? && r.ino == Walk(fs, ROOT, ROOT, parts).ino) <==>
          Normal(parts[..Consumed(fs, ROOT, parts)]) <= Normal(parts)
  {
    var x, e := NormalToFile(fs, depth, parts);
    var k := Consumed(fs, ROOT, parts);
    var a := Normal(parts[..k - 1]);
    NormalSplit(parts, k);
    if a + [e.name] <= Normal(parts) {
      FileByPrefix(fs, a, x, e, Normal(parts));
    }
    var r := Walk(fs, ROOT, ROOT, Normal(parts));
    if r.Found? && r.ino == e.ino {
      FileOnlyByPrefix(fs, depth, a, x, e, Normal(parts));
    }
  }

  // The failing family in one example: /f/.. with a regular file f. The path resolves to the file,
  // its cleaned form to the root.
  function OneFile(): Fs {
    Fs(map[ROOT := [Entry(".", ROOT, Directory), Entry("..", ROOT, Directory), Entry("f", 1, Regular)]])
  }

  lemma OneFileIsTree()
    ensures Tree(OneFile(), map[ROOT := 0])
  {
    var s := OneFile().dirs[ROOT];
    assert s[0].name == "." && s[1].name == ".." && s[2].name == "f";
    assert forall d, e :: Holds(OneFile(), d, e) ==> d == ROOT && e == s[2];
  }

  lemma ExampleParts()
    ensures Parts("/f/..") == ["f", ".."] && Wash("/f/..") == "/"
  {
    assert "/" + "f" + "/.." == "/f/..";
    PartsNext("f", "/..");
    PartsOfOne("..");
    assert "/" + ".." == "/..";
    ExampleNormal();
  }

  lemma ExampleNormal()
    ensures Normal(["f", ".."]) == []
  {
    assert ["f"] + [".."] == ["f", ".."] && [] + ["f"] == ["f"];
  }

  lemma CleaningCanChangeMeaning()
    ensures Tree(OneFile(), map[ROOT := 0]) && Parts("/f/..") == ["f", ".."]
    ensures SearchFile(OneFile(), "/f/..") == Found(1, Regular, ROOT)
    ensures Wash("/f/..") == "/" && SearchFile(OneFile(), "/") == Found(ROOT, Directory, ROOT)
  {
    OneFileIsTree();
    ExampleParts();
    var s := OneFile().dirs[ROOT];
    assert s[0].name == "." && s[1].name == ".." && s[2].name == "f";
  }

  // ---- sys_getcwd ----

  // get_child_dir_name: the name of the first entry with that inode number.
  function NameOf(entries: seq<Entry>, ino: nat): Option<string> {
    if entries == [] then None
    else if entries[0].ino == ino then Some(entries[0].name)
    else NameOf(entries[1..], ino)
  }

  // The names from the root down to directory d, read off upwards.
  ghost function CwdPath(fs: Fs, depth: map<nat, nat>, d: nat): seq<string>
    requires Tree(fs, depth) && d in fs.dirs
    decreases depth[d]
  {
    if d == ROOT then []
    else
      UpAndDown(fs, depth, d);
      CwdPath(fs, depth, fs.dirs[d][1].ino) + [NameOf(fs.dirs[fs.dirs[d][1].ino], d).value]
  }

  // '..' of a directory leads to the one directory that has an entry for it.
  lemma UpAndDown(fs: Fs, depth: map<nat, nat>, d: nat)
    requires Tree(fs, depth) && d in fs.dirs && d != ROOT
    ensures |fs.dirs[d]| >= 2 && fs.dirs[d][1].ftype == Directory
    ensures var up := fs.dirs[d][1].ino;
      && up in fs.dirs && up < MAX_INODES && depth[up] < depth[d]
      && NameOf(fs.dirs[up], d).Some?
  {
    assert DirFits(fs, d) && DirFits(fs, fs.dirs[d][1].ino);
    var up := fs.dirs[d][1].ino;
    var e := EntryOf(fs, depth, d);
    NameOfEntry(fs, depth, d, e);
  }

  lemma EntryOf(fs: Fs, depth: map<nat, nat>, d: nat) returns (e: Entry)
    requires Tree(fs, depth) && d in fs.dirs && d != ROOT
    ensures |fs.dirs[d]| >= 2 && Holds(fs, fs.dirs[d][1].ino, e) && e.ino == d && e.ftype == Directory
    ensures IsName(e.name) && |e.name| < MAX_FILE_NAME_LEN && depth[d] == depth[fs.dirs[d][1].ino] + 1
  {
    assert DirFits(fs, d);
    e :| Holds(fs, fs.dirs[d][1].ino, e) && e.ino == d && e.ftype == Directory;
    assert EntryFits(fs, depth, fs.dirs[d][1].ino, e);
  }

  lemma NameOfEntry(fs: Fs, depth: map<nat, nat>, d: nat, e: Entry)
    requires Tree(fs, depth) && d in fs.dirs && d != ROOT && |fs.dirs[d]| >= 2
    requires Holds(fs, fs.dirs[d][1].ino, e) && e.ino == d && depth[d] == depth[fs.dirs[d][1].ino] + 1
    ensures NameOf(fs.dirs[fs.dirs[d][1].ino], d) == Some(e.name)
  {
    var up := fs.dirs[d][1].ino;
    forall f | f in fs.dirs[up] && f.ino == d
      ensures f == e
    {
      DotOrHeld(fs, depth, up, f);
      if IsDot(f) {
        DotsGoUp(fs, depth, up);
      } else {
        OneEntry(fs, depth, up, e, up, f);
      }
    }
    FirstOf(fs.dirs[up], e);
  }

  // '.' and '..' of a directory never lead down.
  lemma DotsGoUp(fs: Fs, depth: map<nat, nat>, d: nat)
    requires Tree(fs, depth) && d in fs.dirs
    ensures |fs.dirs[d]| >= 2 && fs.dirs[d][0].ino == d
    ensures fs.dirs[d][1].ino in fs.dirs && depth[fs.dirs[d][1].ino] <= depth[d]
  {
    assert DirFits(fs, d);
    if d != ROOT {
      var e := EntryOf(fs, depth, d);
    }
  }

  lemma {:induction false} FirstOf(entries: seq<Entry>, e: Entry)
    requires e in entries && forall f :: f in entries && f.ino == e.ino ==> f == e
    ensures NameOf(entries, e.ino) == Some(e.name)
  {
    if entries[0] != e {
      FirstOf(entries[1..], e);
    }
  }

  lemma {:induction false} CwdReaches(fs: Fs, depth: map<nat, nat>, d: nat)
    requires Tree(fs, depth) && d in fs.dirs
    ensures Clean(CwdPath(fs, depth, d)) && Reaches(fs, CwdPath(fs, depth, d), d)
    decreases depth[d]
  {
    if d != ROOT {
      UpAndDown(fs, depth, d);
      var up := fs.dirs[d][1].ino;
      CwdReaches(fs, depth, up);
      var e := EntryOf(fs, depth, d);
      NameOfEntry(fs, depth, d, e);
      assert DirFits(fs, up);
      var i :| 0 <= i < |fs.dirs[up]| && fs.dirs[up][i] == e;
      ReachesStep(fs, CwdPath(fs, depth, up), e.name, up);
    }
  }

  lemma {:induction false} CwdNamesFit(fs: Fs, depth: map<nat, nat>, d: nat)
    requires Tree(fs, depth) && d in fs.dirs
    ensures forall c :: c in CwdPath(fs, depth, d) ==> |c| < MAX_FILE_NAME_LEN
    decreases depth[d]
  {
    if d != ROOT {
      UpAndDown(fs, depth, d);
      CwdNamesFit(fs, depth, fs.dirs[d][1].ino);
      var e := EntryOf(fs, depth, d);
      NameOfEntry(fs, depth, d, e);
    }
  }

  // get_parent_dir_inode_nr: the second entry of a directory is '..'.
  method GetParentDirInodeNr(fs: Fs, child: nat) returns (parent: nat)
    requires child in fs.dirs && |fs.dirs[child]| >= 2
    requires fs.dirs[child][1].ftype == Directory && fs.dirs[child][1].ino < MAX_INODES
    ensures parent == fs.dirs[child][1].ino
  {
    assert fs.dirs[child][1].ino < MAX_INODES && fs.dirs[child][1].ftype == Directory;
    parent := fs.dirs[child][1].ino;
  }

  method GetChildDirName(entries: seq<Entry>, child: nat) returns (r: Option<string>)
    ensures r == NameOf(entries, child)
  {
    var i := 0;
    while i < |entries|
      invariant 0 <= i <= |entries| && NameOf(entries, child) == NameOf(entries[i..], child)
    {
      assert entries[i..][1..] == entries[i + 1..];
      if entries[i].ino == child {
        return Some(entries[i].name);
      }
      i := i + 1;
    }
    return None;
  }

  // The names of stack, last one first, each behind a slash: full_path_reverse.
  function Backwards(stack: seq<string>): string {
    if stack == [] then "" else Backwards(stack[1..]) + "/" + stack[0]
  }

  lemma {:induction false} BackwardsLength(stack: seq<string>)
    ensures |Backwards(stack)| == |Body(stack)|
  {
    if stack != [] {
      BackwardsLength(stack[1..]);
    }
  }

  lemma CwdPathDown(fs: Fs, depth: map<nat, nat>, d: nat)
    requires Tree(fs, depth) && d in fs.dirs && d != ROOT
    ensures |fs.dirs[d]| >= 2 && fs.dirs[d][1].ino in fs.dirs && NameOf(fs.dirs[fs.dirs[d][1].ino], d).Some?
    ensures CwdPath(fs, depth, d) == CwdPath(fs, depth, fs.dirs[d][1].ino) +
        [NameOf(fs.dirs[fs.dirs[d][1].ino], d).value]
  {
    UpAndDown(fs, depth, d);
  }

  // sys_getcwd on its way up: child is the directory reached, below the names seen so far.
  ghost predicate Climbing(fs: Fs, depth: map<nat, nat>, whole: seq<string>, child: nat, below: seq<string>)
    requires Tree(fs, depth) && child in fs.dirs
  {
    whole == CwdPath(fs, depth, child) + below
  }

  // One step up: the name of child in its parent goes in front of the names seen so far.
  lemma ClimbOne(fs: Fs, depth: map<nat, nat>, whole: seq<string>, child: nat, below: seq<string>)
    requires Tree(fs, depth) && child in fs.dirs && child != ROOT && Climbing(fs, depth, whole, child, below)
    ensures |fs.dirs[child]| >= 2 && fs.dirs[child][1].ftype == Directory
    ensures var up := fs.dirs[child][1].ino;
      && up in fs.dirs && up < MAX_INODES && depth[up] < depth[child] && NameOf(fs.dirs[up], child).Some?
      && var name := NameOf(fs.dirs[up], child).value;
         Climbing(fs, depth, whole, up, [name] + below) && Backwards([name] + below) == Backwards(below) + "/" + name
  {
    UpAndDown(fs, depth, child);
    CwdPathDown(fs, depth, child);
    var up := fs.dirs[child][1].ino;
    var name := NameOf(fs.dirs[up], child).value;
  }

  lemma ClimbEnds(fs: Fs, depth: map<nat, nat>, whole: seq<string>, below: seq<string>)
    requires Tree(fs, depth) && Climbing(fs, depth, whole, ROOT, below)
    ensures whole == below
  {
  }

  // The loop that climbs to the root; it ends because depth falls.
  method Climb(fs: Fs, cwd: nat, ghost depth: map<nat, nat>) returns (full: Option<string>)
    requires Tree(fs, depth) && cwd in fs.dirs
    ensures full == Some(Backwards(CwdPath(fs, depth, cwd)))
  {
    full := ClimbFrom(fs, cwd, depth, CwdPath(fs, depth, cwd));
  }

  method ClimbFrom(fs: Fs, cwd: nat, ghost depth: map<nat, nat>, ghost whole: seq<string>)
    returns (full: Option<string>)
    requires Tree(fs, depth) && cwd in fs.dirs && Climbing(fs, depth, whole, cwd, [])
    ensures full == Some(Backwards(whole))
  {
    var child, path := cwd, "";
    ghost var below: seq<string> := [];
    while child != ROOT
      invariant child in fs.dirs && Climbing(fs, depth, whole, child, below)
      invariant path == Backwards(below)
      decreases depth[child]
    {
      var up: Option<(nat, string)>;
      up, below := ClimbStep(fs, child, path, depth, whole, below);
      if up.None? {
        return None;
      }
      child, path := up.value.0, up.value.1;
    }
    ClimbEnds(fs, depth, whole, below);
    return Some(path);
  }

  // One pass of it: to the parent, with the name found there behind a slash.
  method ClimbStep(fs: Fs, child: nat, path: string, ghost depth: map<nat, nat>, ghost whole: seq<string>,
      ghost below: seq<string>)
    returns (up: Option<(nat, string)>, ghost below': seq<string>)
    requires Tree(fs, depth) && child in fs.dirs && child != ROOT
    requires Climbing(fs, depth, whole, child, below) && path == Backwards(below)
    ensures up.Some? && up.value.0 in fs.dirs && depth[up.value.0] < depth[child]
    ensures Climbing(fs, depth, whole, up.value.0, below') && up.value.1 == Backwards(below')
  {
    ClimbOne(fs, depth, whole, child, below);
    var parent := GetParentDirInodeNr(fs, child);
    var name := GetChildDirName(fs.dirs[parent], child);
    below' := [NameOf(fs.dirs[parent], child).value] + below;
    if name.None? {
      return None, below';
    }
    up := Some((parent, path + "/" + name.value));
  }

  // sys_getcwd turning the path round: done is in buf, left still in full.
  ghost predicate Turning(stack: seq<string>, done: seq<string>, left: seq<string>, buf: string, full: string) {
    && stack == done + left && buf == Body(done) && full == Backwards(left)
    && forall c :: c in left ==> '/' !in c
  }

  lemma TurnCut(left: seq<string>)
    requires left != [] && '/' !in left[0]
    ensures var full := Backwards(left); var rest := Backwards(left[1..]);
      LastSlash(full) == |rest| && full[|rest|..] == "/" + left[0] && full[..|rest|] == rest
  {
    LastSlashOf(Backwards(left[1..]), left[0]);
  }

  lemma TurnOne(stack: seq<string>, done: seq<string>, left: seq<string>, buf: string, full: string)
    requires Turning(stack, done, left, buf, full) && left != []
    ensures var k := LastSlash(full);
      k >= 0 && Turning(stack, done + [left[0]], left[1..], buf + full[k..], full[..k])
  {
    TurnCut(left);
    BodyAppend(done, [left[0]]);
    assert Body([left[0]]) == "/" + left[0];
    assert done + left == done + [left[0]] + left[1..];
  }

  lemma TurnEnds(left: seq<string>)
    requires forall c :: c in left ==> '/' !in c
    ensures LastSlash(Backwards(left)) >= 0 <==> left != []
  {
    if left != [] {
      TurnCut(left);
    }
  }

  lemma TurnStarts(stack: seq<string>, full: string)
    requires (forall c :: c in stack ==> '/' !in c) && full == Backwards(stack)
    ensures Turning(stack, [], stack, "", full) && (LastSlash(full) >= 0 <==> stack != [])
  {
    TurnEnds(stack);
  }

  lemma TurnDone(stack: seq<string>, done: seq<string>, buf: string, full: string)
    requires Turning(stack, done, [], buf, full)
    ensures buf == Body(stack)
  {
    assert done + [] == done;
  }

  // One pass of the loop that turns the path round: the text from the last slash moves to buf.
  method TurnStep(buf: string, full: string, last: nat, ghost stack: seq<string>, ghost done: seq<string>,
      ghost left: seq<string>)
    returns (buf': string, full': string, last': int)
    requires Turning(stack, done, left, buf, full) && last == LastSlash(full) && left != []
    ensures Turning(stack, done + [left[0]], left[1..], buf', full')
    ensures last' == LastSlash(full') && (last' >= 0 <==> left[1..] != [])
  {
    TurnOne(stack, done, left, buf, full);
    TurnEnds(left[1..]);
    buf' := buf + full[last..];
    full' := full[..last];
    last' := StrRChr(full');
  }

  method TurnRound(reversed: string, ghost stack: seq<string>) returns (buf: string)
    requires (forall c :: c in stack ==> '/' !in c) && reversed == Backwards(stack)
    ensures buf == Body(stack)
  {
    buf := "";
    var full := reversed;
    ghost var done: seq<string>, left := [], stack;
    TurnStarts(stack, full);
    var last := StrRChr(full);
    while last >= 0
      invariant Turning(stack, done, left, buf, full)
      invariant last == LastSlash(full) && (last >= 0 <==> left != [])
      decreases |left|
    {
      buf, full, last := TurnStep(buf, full, last, stack, done, left);
      done, left := done + [left[0]], left[1..];
    }
    TurnDone(stack, done, buf, full);
  }

  method SysGetCwd(fs: Fs, cwd: nat, size: nat, ghost depth: map<nat, nat>) returns (buf: Option<string>)
    requires Tree(fs, depth) && cwd in fs.dirs
    requires |Body(CwdPath(fs, depth, cwd))| < size && |Body(CwdPath(fs, depth, cwd))| < MAX_PATH_LEN
    ensures buf == Some(Render(CwdPath(fs, depth, cwd)))
  {
    assert cwd < MAX_INODES by {
      assert DirFits(fs, cwd);
    }
    if cwd == ROOT {
      return Some("/");
    }
    var full := Climb(fs, cwd, depth);
    if full.None? {
      return None;
    }
    ghost var stack := CwdPath(fs, depth, cwd);
    BackwardsLength(stack);
    assert |full.value| < size;
    CwdReaches(fs, depth, cwd);
    UpAndDown(fs, depth, cwd);
    var path := TurnRound(full.value, stack);
    return Some(path);
  }

  // sys_chdir: the new working directory, or the old one with -1.
  method SysChdir(fs: Fs, cwd: nat, path: string) returns (ret: int, newCwd: nat)
    requires path == "/" || (Parts(path) != [] && path[0] == '/' && NamesFit(path))
    requires |path| < MAX_PATH_LEN
    ensures var r := SearchFile(fs, path);
      if r.Found? && r.ftype == Directory then ret == 0 && newCwd == r.ino else ret == -1 && newCwd == cwd
  {
    ret, newCwd := -1, cwd;
    var r := FollowPath(fs, path);
    if r.Found? && r.ftype == Directory {
      newCwd := r.ino;
      ret := 0;
    }
  }

  // getcwd and search are inverse: the path of a directory resolves to it, and it is the only path in
  // normal form that does.
  lemma CwdIsInverse(fs: Fs, depth: map<nat, nat>, d: nat)
    requires Tree(fs, depth) && d in fs.dirs
    ensures var p := Render(CwdPath(fs, depth, d));
      && (p == "/" || Parts(p) != []) && Wash(p) == p
      && SearchFile(fs, p).Found? && SearchFile(fs, p).ino == d && SearchFile(fs, p).ftype == Directory
    ensures forall stack :: Clean(stack) && Reaches(fs, stack, d) ==> stack == CwdPath(fs, depth, d)
  {
    var stack := CwdPath(fs, depth, d);
    CwdReaches(fs, depth, d);
    PartsOfRender(stack);
    NormalOfClean(stack);
    SearchIsWalk(fs, depth, Render(stack));
    forall s | Clean(s) && Reaches(fs, s, d)
      ensures s == stack
    {
      OneDirPath(fs, depth, s, stack, d);
    }
  }

  // chdir(getcwd()) succeeds and changes nothing.
  method ChdirToCwd(fs: Fs, cwd: nat, size: nat, ghost depth: map<nat, nat>) returns (ret: int, newCwd: nat)
    requires Tree(fs, depth) && cwd in fs.dirs
    requires |Body(CwdPath(fs, depth, cwd))| < size && |Body(CwdPath(fs, depth, cwd))| < MAX_PATH_LEN
    ensures ret == 0 && newCwd == cwd
  {
    var buf := SysGetCwd(fs, cwd, size, depth);
    CwdIsInverse(fs, depth, cwd);
    CwdReaches(fs, depth, cwd);
    CwdNamesFit(fs, depth, cwd);
    NamesFitOfRender(CwdPath(fs, depth, cwd));
    ret, newCwd := SysChdir(fs, cwd, buf.value);
  }
}
