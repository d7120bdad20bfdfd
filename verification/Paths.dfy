// fs/fs.c and shell/builtin_cmd.c: taking paths apart and cleaning them. A path is a string; its
// components are what path_parse yields one after the other, and its normal form is the stack of
// directories entered.
module Paths {
  import opened Options

  const MAX_FILE_NAME_LEN := 16
  const MAX_PATH_LEN := 512

  // ---- path_parse ----

  // A path without its leading slashes.
  function Skip(p: string): (r: string)
    ensures |r| <= |p| && (r == "" || r[0] != '/')
    ensures p == "" || p[0] != '/' ==> r == p
    ensures p != "" && p[0] == '/' ==> |r| < |p|
  {
    if p != "" && p[0] == '/' then Skip(p[1..]) else p
  }

  // What is dropped is slashes only.
  lemma {:induction false} SkipIs(p: string)
    ensures var n := |p| - |Skip(p)|; Skip(p) == p[n..] && forall i :: 0 <= i < n ==> p[i] == '/'
  {
    if p != "" && p[0] == '/' {
      SkipIs(p[1..]);
      assert forall i :: 0 < i < |p| ==> p[i] == p[1..][i - 1];
    }
  }

  function NameLen(p: string): (n: nat)
    ensures n <= |p| && '/' !in p[..n] && (n < |p| ==> p[n] == '/')
    ensures p != "" && p[0] != '/' ==> n > 0
  {
    if p == "" || p[0] == '/' then 0
    else
      assert p[..1 + NameLen(p[1..])] == [p[0]] + p[1..][..NameLen(p[1..])];
      1 + NameLen(p[1..])
  }

  // The components of a path.
  function Parts(p: string): (r: seq<string>)
    ensures forall c :: c in r ==> c != "" && '/' !in c
    decreases |p|
  {
    var q := Skip(p);
    if q == "" then [] else [q[..NameLen(q)]] + Parts(q[NameLen(q)..])
  }

  // However many slashes a path starts with, its components are the same.
  lemma SlashesDoNotCount(p: string)
    ensures Parts("/" + p) == Parts(p)
  {
    assert ("/" + p)[1..] == p;
    assert Skip("/" + p) == Skip(p);
  }

  // p[lo..hi] has no slash, and cannot be longer.
  predicate IsRun(p: string, lo: nat, hi: nat) {
    lo < hi <= |p| && '/' !in p[lo..hi] && (lo > 0 ==> p[lo - 1] == '/') && (hi < |p| ==> p[hi] == '/')
  }

  // rs are the runs of p from position from on, in order, and all of them; parts are what they spell.
  ghost predicate AreRuns(p: string, from: nat, rs: seq<(nat, nat)>, parts: seq<string>) {
    && |rs| == |parts|
    && (forall i :: 0 <= i < |rs| ==>
          from <= rs[i].0 && IsRun(p, rs[i].0, rs[i].1) && parts[i] == p[rs[i].0..rs[i].1])
    && (forall i, j :: 0 <= i < j < |rs| ==> rs[i].1 < rs[j].0)
    && (forall x: nat :: from <= x < |p| && p[x] != '/' ==> InSome(rs, x))
  }

  ghost predicate InSome(rs: seq<(nat, nat)>, x: nat) {
    exists i :: 0 <= i < |rs| && rs[i].0 <= x < rs[i].1
  }

  // The components of a path are its maximal runs without a slash, in order.
  lemma PartsAreRuns(p: string) returns (rs: seq<(nat, nat)>)
    ensures AreRuns(p, 0, rs, Parts(p))
  {
    assert p[0..] == p;
    rs := RunsFrom(p, 0);
  }

  lemma {:induction false} RunsFrom(p: string, k: nat) returns (rs: seq<(nat, nat)>)
    requires k <= |p| && (k == 0 || k == |p| || p[k] == '/')
    ensures AreRuns(p, k, rs, Parts(p[k..]))
    decreases |p| - k
  {
    var lo, hi := FirstRun(p, k);
    if lo == |p| {
      return [];
    }
    var rest := RunsFrom(p, hi);
    rs := [(lo, hi)] + rest;
    RunAdded(p, k, lo, hi, rest, Parts(p[hi..]));
  }

  // The first run from k on, or the end of the path.
  lemma FirstRun(p: string, k: nat) returns (lo: nat, hi: nat)
    requires k <= |p| && (k == 0 || k == |p| || p[k] == '/')
    ensures k <= lo <= |p| && forall i :: k <= i < lo ==> p[i] == '/'
    ensures lo < |p| ==> IsRun(p, lo, hi) && Parts(p[k..]) == [p[lo..hi]] + Parts(p[hi..])
    ensures lo == |p| ==> Parts(p[k..]) == []
  {
    var r := p[k..];
    var q := Skip(r);
    SkipIs(r);
    lo := |p| - |q|;
    SliceOf(p, k, lo);
    hi := lo + NameLen(q);
    SliceOf(p, lo, hi);
    assert lo < |p| ==> q[..NameLen(q)] == p[lo..hi] && p[lo] == q[0];
    assert hi < |p| ==> q[NameLen(q)] == p[hi];
  }

  lemma SliceOf(p: string, k: nat, m: nat)
    requires k <= m <= |p|
    ensures p[k..][m - k..] == p[m..] && forall i :: k <= i < |p| ==> p[k..][i - k] == p[i]
  {
  }

  lemma RunAdded(p: string, k: nat, lo: nat, hi: nat, rest: seq<(nat, nat)>, parts: seq<string>)
    requires IsRun(p, lo, hi) && k <= lo && (forall i :: k <= i < lo ==> p[i] == '/') && AreRuns(p, hi, rest, parts)
    ensures AreRuns(p, k, [(lo, hi)] + rest, [p[lo..hi]] + parts)
  {
    var rs, all := [(lo, hi)] + rest, [p[lo..hi]] + parts;
    forall x: nat | k <= x < |p| && p[x] != '/'
      ensures InSome(rs, x)
    {
      RunFound(p, k, lo, hi, rest, x);
    }
    forall i | 0 <= i < |rs|
      ensures k <= rs[i].0 && IsRun(p, rs[i].0, rs[i].1) && all[i] == p[rs[i].0..rs[i].1]
      ensures i > 0 ==> rs[i] == rest[i - 1] && hi < rs[i].0
    {
      if i > 0 {
        assert rs[i] == rest[i - 1] && all[i] == parts[i - 1];
        RunStarts(p, rs[i].0, rs[i].1);
      }
    }
  }

  lemma RunFound(p: string, k: nat, lo: nat, hi: nat, rest: seq<(nat, nat)>, x: nat)
    requires k <= lo < hi <= |p| && k <= x < |p| && p[x] != '/' && forall i :: k <= i < lo ==> p[i] == '/'
    requires hi <= x ==> InSome(rest, x)
    ensures InSome([(lo, hi)] + rest, x)
  {
    var rs := [(lo, hi)] + rest;
    if x < hi {
      assert rs[0].0 <= x < rs[0].1;
    } else {
      var i :| 0 <= i < |rest| && rest[i].0 <= x < rest[i].1;
      assert rs[i + 1] == rest[i];
    }
  }

  lemma RunStarts(p: string, lo: nat, hi: nat)
    requires IsRun(p, lo, hi)
    ensures p[lo] != '/'
  {
    assert p[lo] == p[lo..hi][0] && p[lo..hi][0] in p[lo..hi];
  }

  // And nothing else spells the runs.
  lemma RunsAreParts(p: string, rs: seq<(nat, nat)>, parts: seq<string>)
    requires AreRuns(p, 0, rs, parts)
    ensures parts == Parts(p)
  {
    var rs' := PartsAreRuns(p);
    SameRuns(p, 0, rs, parts, rs', Parts(p));
  }

  lemma {:induction false} SameRuns(p: string, from: nat, rs: seq<(nat, nat)>, parts: seq<string>,
      rs': seq<(nat, nat)>, parts': seq<string>)
    requires AreRuns(p, from, rs, parts) && AreRuns(p, from, rs', parts')
    ensures rs == rs' && parts == parts'
    decreases |rs|
  {
    if rs != [] {
      FirstRunIs(p, from, rs, parts, rs', parts');
      FirstRunIs(p, from, rs', parts', rs, parts);
      OneRun(p, rs[0].0, rs[0].1, rs'[0].1);
      RunsBehind(p, from, rs, parts);
      RunsBehind(p, from, rs', parts');
      SameRuns(p, rs[0].1, rs[1..], parts[1..], rs'[1..], parts'[1..]);
      assert rs == [rs[0]] + rs[1..] && rs' == [rs'[0]] + rs'[1..];
      assert parts == [parts[0]] + parts[1..] && parts' == [parts'[0]] + parts'[1..];
    } else if rs' != [] {
      FirstRunIs(p, from, rs', parts', rs, parts);
    }
  }

  lemma FirstRunIs(p: string, from: nat, rs: seq<(nat, nat)>, parts: seq<string>,
      rs': seq<(nat, nat)>, parts': seq<string>)
    requires AreRuns(p, from, rs, parts) && AreRuns(p, from, rs', parts') && rs != []
    ensures rs' != [] && rs'[0].0 <= rs[0].0
  {
    RunStarts(p, rs[0].0, rs[0].1);
    assert InSome(rs', rs[0].0);
    var i :| 0 <= i < |rs'| && rs'[i].0 <= rs[0].0 < rs'[i].1;
    assert i > 0 ==> rs'[0].1 < rs'[i].0 && IsRun(p, rs'[0].0, rs'[0].1);
  }

  lemma OneRun(p: string, lo: nat, hi: nat, hi': nat)
    requires IsRun(p, lo, hi) && IsRun(p, lo, hi')
    ensures hi == hi'
  {
  }

  lemma RunsBehind(p: string, from: nat, rs: seq<(nat, nat)>, parts: seq<string>)
    requires AreRuns(p, from, rs, parts) && rs != []
    ensures AreRuns(p, rs[0].1, rs[1..], parts[1..])
  {
    forall x: nat | rs[0].1 <= x < |p| && p[x] != '/'
      ensures InSome(rs[1..], x)
    {
      assert from <= rs[0].0 && IsRun(p, rs[0].0, rs[0].1) && InSome(rs, x);
      var i :| 0 <= i < |rs| && rs[i].0 <= x < rs[i].1;
      assert rs[1..][i - 1] == rs[i];
    }
  }

  // Every component fits the kernel's name buffers.
  predicate NamesFit(p: string) {
    forall c :: c in Parts(p) ==> |c| < MAX_FILE_NAME_LEN
  }

  // path_parse copies the top component into name_store and returns what follows it, or NULL.
  method PathParse(pathname: string) returns (name: string, rest: Option<string>)
    ensures Parts(pathname) == (if name == "" then [] else [name] + (if rest.Some? then Parts(rest.value) else []))
    ensures Skip(pathname) == name + (if rest.Some? then rest.value else "")
    ensures rest.Some? ==> |rest.value| < |pathname| && name != "" && rest.value != "" && rest.value[0] == '/'
    ensures |name| <= |pathname| && '/' !in name
  {
    var p := SkipSlashes(pathname);
    var i := 0;
    assert p[0..] == p;
    while i < |p| && p[i] != '/'
      invariant 0 <= i <= |p| && NameLen(p) == i + NameLen(p[i..])
    {
      i := i + 1;
    }
    assert NameLen(p[i..]) == 0;
    name := p[..i];
    rest := if i == |p| then None else Some(p[i..]);
  }

  method SkipSlashes(pathname: string) returns (p: string)
    ensures p == Skip(pathname)
  {
    p := pathname;
    if p != "" && p[0] == '/' {
      p := p[1..];
      while p != "" && p[0] == '/'
        invariant Skip(p) == Skip(pathname)
        decreases |p|
      {
        p := p[1..];
      }
    }
  }

  // ---- the normal form of a path ----

  // What one component does to the directories entered so far.
  function Enter(stack: seq<string>, c: string): seq<string> {
    if c == ".." then (if stack == [] then [] else stack[..|stack| - 1])
    else if c == "." then stack
    else stack + [c]
  }

  function Normal(parts: seq<string>): seq<string> {
    if parts == [] then [] else Enter(Normal(parts[..|parts| - 1]), parts[|parts| - 1])
  }

  function Body(stack: seq<string>): string {
    if stack == [] then "" else "/" + stack[0] + Body(stack[1..])
  }

  function Render(stack: seq<string>): string {
    if stack == [] then "/" else Body(stack)
  }

  // The path wash_path is to produce.
  function Wash(p: string): string {
    Render(Normal(Parts(p)))
  }

  predicate IsName(c: string) {
    c != "" && '/' !in c
  }

  // Components that are names and neither '.' nor '..'.
  predicate Clean(stack: seq<string>) {
    forall c :: c in stack ==> IsName(c) && c != "." && c != ".."
  }

  lemma {:induction false} NormalIsClean(parts: seq<string>)
    requires forall c :: c in parts ==> IsName(c)
    ensures Clean(Normal(parts)) && |Normal(parts)| <= |parts|
  {
    if parts != [] {
      NormalIsClean(parts[..|parts| - 1]);
    }
  }

  lemma CleanLast(a: seq<string>)
    requires a != [] && Clean(a)
    ensures a == a[..|a| - 1] + [a[|a| - 1]] && a[|a| - 1] !in {".", ".."} && Clean(a[..|a| - 1])
  {
    CleanPrefix(a, |a| - 1);
    assert a[|a| - 1] in a;
  }

  lemma CleanPrefix(a: seq<string>, k: nat)
    requires k <= |a| && Clean(a)
    ensures Clean(a[..k])
  {
    forall c | c in a[..k]
      ensures c in a
    {
      var i :| 0 <= i < k && a[..k][i] == c;
      assert a[i] == c;
    }
  }

  lemma {:induction false} NormalOfClean(stack: seq<string>)
    requires Clean(stack)
    ensures Normal(stack) == stack
  {
    if stack != [] {
      CleanLast(stack);
      NormalOfClean(stack[..|stack| - 1]);
    }
  }

  lemma NamesFitOfRender(stack: seq<string>)
    requires Clean(stack) && forall c :: c in stack ==> |c| < MAX_FILE_NAME_LEN
    ensures NamesFit(Render(stack)) && Render(stack)[0] == '/'
  {
    PartsOfRender(stack);
  }

  // Without '..' a longer path has a longer normal form.
  lemma {:induction false} NormalGrows(parts: seq<string>, k: nat)
    requires k <= |parts| && ".." !in parts
    ensures Normal(parts[..k]) <= Normal(parts)
  {
    if k == |parts| {
      assert parts[..k] == parts;
    } else {
      var init := parts[..|parts| - 1];
      NormalGrows(init, k);
      assert init[..k] == parts[..k] && parts[|parts| - 1] in parts;
    }
  }

  lemma SkipAll(c: string, rest: string)
    requires IsName(c) && (rest == "" || rest[0] == '/')
    ensures Skip("/" + c + rest) == c + rest
    ensures NameLen(c + rest) == |c|
  {
    assert c[0] in c && (c + rest)[0] == c[0];
    assert "/" + c + rest == "/" + (c + rest);
    NameLenOf(c, rest);
  }

  lemma {:induction false} NameLenOf(c: string, rest: string)
    requires '/' !in c && (rest == "" || rest[0] == '/')
    ensures NameLen(c + rest) == |c|
  {
    if c == "" {
      assert c + rest == rest;
    } else {
      assert (c + rest)[1..] == c[1..] + rest;
      NameLenOf(c[1..], rest);
    }
  }

  lemma {:induction false} PartsOfBody(stack: seq<string>)
    requires Clean(stack)
    ensures Parts(Body(stack)) == stack
  {
    if stack != [] {
      assert stack[0] in stack && stack == [stack[0]] + stack[1..];
      BodyStarts(stack[1..]);
      PartsNext(stack[0], Body(stack[1..]));
      PartsOfBody(stack[1..]);
    }
  }

  lemma PartsNext(c: string, rest: string)
    requires IsName(c) && (rest == "" || rest[0] == '/')
    ensures Parts("/" + c + rest) == [c] + Parts(rest)
  {
    SkipAll(c, rest);
    assert (c + rest)[..|c|] == c && (c + rest)[|c|..] == rest;
  }

  lemma PartsOfRender(stack: seq<string>)
    requires Clean(stack)
    ensures Parts(Render(stack)) == stack
  {
    if stack == [] {
      assert "/"[1..] == "" && Skip("/") == Skip("");
    } else {
      PartsOfBody(stack);
    }
  }

  // wash_path's result is in normal form, and cleaning it again changes nothing.
  lemma WashIsNormal(p: string)
    ensures Clean(Parts(Wash(p))) && Render(Parts(Wash(p))) == Wash(p)
    ensures Wash(Wash(p)) == Wash(p)
  {
    NormalIsClean(Parts(p));
    PartsOfRender(Normal(Parts(p)));
    NormalOfClean(Normal(Parts(p)));
  }

  lemma {:induction false} BodyAppend(a: seq<string>, b: seq<string>)
    ensures Body(a + b) == Body(a) + Body(b)
  {
    if a == [] {
      assert a + b == b;
    } else {
      assert (a + b)[1..] == a[1..] + b;
      BodyAppend(a[1..], b);
    }
  }

  // ---- wash_path ----

  function LastSlash(p: string): (k: int)
    ensures -1 <= k < |p| && (k >= 0 ==> p[k] == '/') && forall j :: k < j < |p| ==> p[j] != '/'
  {
    if p == "" then -1 else if p[|p| - 1] == '/' then |p| - 1 else LastSlash(p[..|p| - 1])
  }

  // strrchr(p, '/'), as an index; -1 for NULL.
  method StrRChr(p: string) returns (last: int)
    ensures last == LastSlash(p)
  {
    last := -1;
    var i := 0;
    while i < |p|
      invariant 0 <= i <= |p| && -1 <= last < i && (last >= 0 ==> p[last] == '/')
      invariant forall j :: last < j < i ==> p[j] != '/'
    {
      if p[i] == '/' {
        last := i;
      }
      i := i + 1;
    }
  }

  lemma LastSlashOf(a: string, c: string)
    requires '/' !in c
    ensures LastSlash(a + "/" + c) == |a|
    ensures (a + "/" + c)[|a|..] == "/" + c && (a + "/" + c)[..|a|] == a
  {
    var p := a + "/" + c;
    SlashParts(p, a, c);
  }

  lemma SlashParts(p: string, a: string, c: string)
    requires p == a + "/" + c && '/' !in c
    ensures |a| < |p| && p[|a|] == '/' && p[..|a|] == a && p[|a|..] == "/" + c
    ensures forall j :: |a| < j < |p| ==> p[j] != '/'
  {
    assert p == (a + "/") + c && p[|a| + 1..] == c;
    assert p[..|a|] == a && p[|a|..] == "/" + c;
    assert p[|a|] == p[|a|..][0];
  }

  // Cutting at the last slash takes the last component off.
  lemma CutLast(stack: seq<string>)
    requires stack != [] && Clean(stack)
    ensures var init := stack[..|stack| - 1];
      LastSlash(Body(stack)) == |Body(init)| && Body(stack)[..|Body(init)|] == Body(init)
  {
    var init, c := stack[..|stack| - 1], stack[|stack| - 1];
    assert stack == init + [c] && c in stack;
    BodyAppend(init, [c]);
    assert Body([c]) == "/" + c;
    assert Body(stack) == Body(init) + "/" + c;
    LastSlashOf(Body(init), c);
  }

  lemma BodyStarts(stack: seq<string>)
    ensures stack != [] ==> Body(stack) != "" && Body(stack)[0] == '/'
    ensures stack != [] && Clean(stack) ==> Body(stack) != "/"
  {
    if stack != [] {
      assert stack[0] in stack;
    }
  }

  // One pass of the loop of wash_path: what a component does to new_abs_path.
  method WashStep(path: string, name: string, ghost stack: seq<string>) returns (r: string)
    requires Clean(stack) && path == Render(stack) && IsName(name)
    ensures r == Render(Enter(stack, name))
  {
    r := path;
    if name == ".." {
      r := WashUp(path, stack);
    } else if name != "." {
      BodyAppend(stack, [name]);
      assert Body([name]) == "/" + name;
      BodyStarts(stack);
      if r != "/" {
        r := r + "/";
      }
      r := r + name;
      assert r == Body(stack) + "/" + name;
    }
  }

  // What ".." does: the text from the last slash on goes, but for the first slash.
  method WashUp(path: string, ghost stack: seq<string>) returns (r: string)
    requires Clean(stack) && path == Render(stack)
    ensures r == Render(Enter(stack, ".."))
  {
    LastSlashOfRender(stack);
    var slash := StrRChr(path);
    if slash != 0 {
      r := path[..slash];
    } else {
      r := path[..1];
    }
  }

  lemma LastSlashOfRender(stack: seq<string>)
    requires Clean(stack)
    ensures var k := LastSlash(Render(stack));
      k >= 0 && Render(Enter(stack, "..")) == if k != 0 then Render(stack)[..k] else Render(stack)[..1]
  {
    if stack == [] {
      LastSlashOf("", "");
      assert "" + "/" + "" == "/";
    } else {
      CutLast(stack);
      BodyStarts(stack);
      BodyStarts(stack[..|stack| - 1]);
    }
  }

  // The components still to come: the one in name and those of subPath, NULL standing for none.
  ghost function Left(name: string, subPath: Option<string>): seq<string> {
    if name == "" then [] else [name] + (if subPath.Some? then Parts(subPath.value) else [])
  }

  method NextName(subPath: Option<string>) returns (name: string, rest: Option<string>)
    ensures Left(name, rest) == if subPath.Some? then Parts(subPath.value) else []
    ensures rest.Some? ==> name != "" && subPath.Some? && |rest.value| < |subPath.value|
    ensures name != "" ==> subPath.Some?
  {
    name, rest := "", None;
    if subPath.Some? {
      name, rest := PathParse(subPath.value);
    }
  }

  // done are the components of parts handled so far.
  ghost predicate Washing(parts: seq<string>, done: seq<string>, left: seq<string>, path: string) {
    parts == done + left && path == Render(Normal(done))
  }

  lemma DoneIsClean(parts: seq<string>, done: seq<string>, left: seq<string>)
    requires parts == done + left && forall c :: c in parts ==> IsName(c)
    ensures Clean(Normal(done)) && forall c :: c in left ==> IsName(c)
  {
    assert forall c :: c in done ==> c in parts;
    NormalIsClean(done);
  }

  method WashPath(oldPath: string) returns (newPath: string)
    requires oldPath != "" && oldPath[0] == '/' && NamesFit(oldPath)
    ensures newPath == Wash(oldPath)
  {
    ghost var parts := Parts(oldPath);
    var name, subPath := PathParse(oldPath);
    if name == "" {
      return "/";
    }
    newPath := WashAll(name, subPath, parts);
  }

  // The loop of wash_path.
  method WashAll(first: string, rest: Option<string>, ghost parts: seq<string>) returns (newPath: string)
    requires parts == Left(first, rest) && forall c :: c in parts ==> IsName(c)
    ensures newPath == Render(Normal(parts))
  {
    var name, subPath := first, rest;
    newPath := "/";
    ghost var done, left := [], parts;
    while name != ""
      invariant left == Left(name, subPath) && (left != [] <==> name != "") && (left != [] ==> left[0] == name)
      invariant Washing(parts, done, left, newPath)
      decreases |left|
    {
      DoneIsClean(parts, done, left);
      newPath := WashStep(newPath, name, Normal(done));
      done := done + [name];
      name, subPath := NextName(subPath);
      left := left[1..];
    }
    assert done == parts;
  }

  // ---- the cleaned path is no longer than the path ----

  lemma {:induction false} BodyOfParts(p: string)
    ensures |Body(Parts(p))| <= |p| + 1
    ensures p == "" || p[0] == '/' ==> |Body(Parts(p))| <= |p|
    decreases |p|
  {
    var q := Skip(p);
    if q != "" {
      BodyOfParts(q[NameLen(q)..]);
      assert Parts(p)[1..] == Parts(q[NameLen(q)..]);
    }
  }

  lemma {:induction false} NormalShrinks(parts: seq<string>)
    ensures |Body(Normal(parts))| <= |Body(parts)|
  {
    if parts != [] {
      var init, c := parts[..|parts| - 1], parts[|parts| - 1];
      assert parts == init + [c];
      NormalShrinks(init);
      BodyAppend(init, [c]);
      var stack := Normal(init);
      if c == ".." && stack != [] {
        assert stack == stack[..|stack| - 1] + [stack[|stack| - 1]];
        BodyAppend(stack[..|stack| - 1], [stack[|stack| - 1]]);
      } else if c != "." {
        BodyAppend(stack, [c]);
      }
    }
  }

  // A buffer that holds a path holds what wash_path makes of it.
  lemma WashFits(p: string)
    requires p != "" && p[0] == '/'
    ensures |Wash(p)| <= |p|
  {
    BodyOfParts(p);
    NormalShrinks(Parts(p));
  }
}
