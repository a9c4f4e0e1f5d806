/** Which files the pure walk of `TreeWalk` visits: each one below the start, once. */
module TreeVisits {
  import opened TreeWalk

  /** `names` lead down from `path`, each listed in the readable directory before it. */
  ghost predicate Chain(fs: FileSystem, path: CString, names: seq<CString>)
    decreases |names|
  {
    names == [] ||
    (&& path in fs && fs[path].Directory? && fs[path].readable
     && names[0] in fs[path].names && !IsDot(names[0])
     && Chain(fs, Child(path, names[0]), names[1..]))
  }

  function Join(path: CString, names: seq<CString>): CString
    decreases |names|
  {
    if names == [] then path else Join(Child(path, names[0]), names[1..])
  }

  ghost predicate ReachedFrom(fs: FileSystem, path: CString, p: CString) {
    exists names :: Chain(fs, path, names) && p == Join(path, names)
  }

  /** The flag and the mode say what the path is. */
  ghost predicate Truthful(fs: FileSystem, v: Visit) {
    match v.flag
    case FTW_NS => v.path !in fs
    case FTW_F => v.path in fs && fs[v.path] == File(v.mode)
    case FTW_D => v.path in fs && fs[v.path].Directory? && v.mode == Dir
    case FTW_DNR =>
      exists q :: v.path == q + SLASH && q in fs && fs[q].Directory? && !fs[q].readable && v.mode == Dir
  }

  lemma ReachedThroughChild(fs: FileSystem, path: CString, name: CString, p: CString)
    requires path in fs && fs[path].Directory? && fs[path].readable && name in fs[path].names && !IsDot(name)
    requires ReachedFrom(fs, Child(path, name), p)
    ensures ReachedFrom(fs, path, p)
  {
    var names :| Chain(fs, Child(path, name), names) && p == Join(Child(path, name), names);
    assert ([name] + names)[1..] == names;
    assert Chain(fs, path, [name] + names);
  }

  /** Every visit but the unreadable-directory ones is of a path below the start, and tells the truth about it. */
  lemma {:induction false} VisitsAreReached(fs: FileSystem, path: CString, v: Visit)
    requires v in Walk(fs, path)
    ensures v.flag != FTW_DNR ==> ReachedFrom(fs, path, v.path)
    ensures Truthful(fs, v)
    decreases Depth(fs, path), 1, 0
  {
    assert Chain(fs, path, []) && Join(path, []) == path;
    if path in fs && fs[path].Directory? && v != Visit(path, Dir, FTW_D) {
      if fs[path].readable {
        NameVisitsAreReached(fs, path, fs[path].names, v);
      }
    }
  }

  lemma {:induction false} NameVisitsAreReached(fs: FileSystem, path: CString, names: seq<CString>, v: Visit)
    requires path in fs && fs[path].Directory? && fs[path].readable
    requires forall n :: n in names ==> n in fs[path].names
    requires v in WalkNames(fs, path, names)
    ensures v.flag != FTW_DNR ==> ReachedFrom(fs, path, v.path)
    ensures Truthful(fs, v)
    decreases Depth(fs, path), 0, |names|
  {
    ChildIsDeeper(fs, path, names[0]);
    if !IsDot(names[0]) && v in Walk(fs, Child(path, names[0])) {
      VisitsAreReached(fs, Child(path, names[0]), v);
      if v.flag != FTW_DNR {
        ReachedThroughChild(fs, path, names[0], v.path);
      }
    } else {
      NameVisitsAreReached(fs, path, names[1..], v);
    }
  }

  /** And every path below the start gets such a visit. */
  lemma {:induction false} ReachedAreVisited(fs: FileSystem, path: CString, names: seq<CString>) returns (v: Visit)
    requires Chain(fs, path, names)
    ensures v in Walk(fs, path) && v.flag != FTW_DNR && v.path == Join(path, names)
    decreases |names|
  {
    if names == [] {
      v := Walk(fs, path)[0];
    } else {
      v := ReachedAreVisited(fs, Child(path, names[0]), names[1..]);
      ChildWalkIsPart(fs, path, fs[path].names, names[0], v);
    }
  }

  lemma {:induction false} ChildWalkIsPart(fs: FileSystem, path: CString, names: seq<CString>, name: CString, v: Visit)
    requires path in fs && name in names && !IsDot(name) && v in Walk(fs, Child(path, name))
    ensures v in WalkNames(fs, path, names)
  {
    if names[0] != name {
      ChildWalkIsPart(fs, path, names[1..], name, v);
    }
  }

  /** The walk visits exactly the paths that chains of listed names lead to. */
  lemma VisitedIffReached(fs: FileSystem, path: CString, p: CString)
    ensures (exists v :: v in Walk(fs, path) && v.flag != FTW_DNR && v.path == p) <==> ReachedFrom(fs, path, p)
  {
    if ReachedFrom(fs, path, p) {
      var names :| Chain(fs, path, names) && p == Join(path, names);
      var v := ReachedAreVisited(fs, path, names);
    }
    forall v | v in Walk(fs, path) && v.flag != FTW_DNR && v.path == p
      ensures ReachedFrom(fs, path, p)
    {
      VisitsAreReached(fs, path, v);
    }
  }

  /** What readdir promises of the entries of one directory. */
  ghost predicate ProperNames(names: seq<CString>) {
    && (forall i :: 0 <= i < |names| ==> names[i] != [] && '/' !in names[i])
    && (forall i, j :: 0 <= i < j < |names| ==> names[i] != names[j])
  }

  ghost predicate Proper(fs: FileSystem) {
    forall p :: p in fs && fs[p].Directory? ==> ProperNames(fs[p].names)
  }

  /** `p` is `path`, or lies below it. */
  predicate Under(path: CString, p: CString) {
    p == path || path + SLASH <= p
  }

  lemma {:induction false} VisitsAreUnder(fs: FileSystem, path: CString, v: Visit)
    requires v in Walk(fs, path)
    ensures Under(path, v.path)
    decreases Depth(fs, path), 1, 0
  {
    if path in fs && fs[path].Directory? && fs[path].readable && v != Visit(path, Dir, FTW_D) {
      NameVisitsAreUnder(fs, path, fs[path].names, v);
    }
  }

  lemma {:induction false} NameVisitsAreUnder(fs: FileSystem, path: CString, names: seq<CString>, v: Visit)
    requires path in fs && v in WalkNames(fs, path, names)
    ensures path + SLASH <= v.path
    ensures exists n :: n in names && !IsDot(n) && Under(Child(path, n), v.path)
    decreases Depth(fs, path), 0, |names|
  {
    ChildIsDeeper(fs, path, names[0]);
    if !IsDot(names[0]) && v in Walk(fs, Child(path, names[0])) {
      VisitsAreUnder(fs, Child(path, names[0]), v);
      assert path + SLASH <= Child(path, names[0]);
      assert names[0] in names;
    } else {
      NameVisitsAreUnder(fs, path, names[1..], v);
    }
  }

  lemma LongerNameHasSlash(path: CString, a: CString, b: CString, p: CString)
    requires Under(Child(path, a), p) && Under(Child(path, b), p) && |a| < |b|
    ensures '/' in b
  {
    NameInPath(path, a, p);
    NameInPath(path, b, p);
    assert b[|a|] == p[|path| + 1..][|a|];
  }

  /** Different names without slashes lead to disjoint parts of the hierarchy. */
  lemma SiblingsApart(path: CString, a: CString, b: CString, p: CString)
    requires a != b && '/' !in a && '/' !in b
    requires Under(Child(path, a), p)
    ensures !Under(Child(path, b), p)
  {
    if Under(Child(path, b), p) {
      NameInPath(path, a, p);
      NameInPath(path, b, p);
      if |a| < |b| {
        LongerNameHasSlash(path, a, b, p);
      } else if |b| < |a| {
        LongerNameHasSlash(path, b, a, p);
      }
    }
  }

  lemma NameInPath(path: CString, a: CString, p: CString)
    requires Under(Child(path, a), p)
    ensures |path| + 1 + |a| <= |p|
    ensures p[|path| + 1..][..|a|] == a
    ensures |path| + 1 + |a| < |p| ==> p[|path| + 1..][|a|] == '/'
  {
    var q := Child(path, a);
    assert q <= p;
    assert p[..|q|] == q;
    assert p[|path| + 1..][..|a|] == p[..|q|][|path| + 1..] == q[|path| + 1..] == a;
    if p != q {
      assert p[..|q| + 1] == q + SLASH;
      assert p[|q|] == p[..|q| + 1][|q|] == '/';
    }
  }

  ghost predicate DistinctPaths(trace: seq<Visit>) {
    forall i, j :: 0 <= i < j < |trace| ==> trace[i].path != trace[j].path
  }

  lemma DistinctConcat(a: seq<Visit>, b: seq<Visit>)
    requires DistinctPaths(a) && DistinctPaths(b)
    requires forall v, w :: v in a && w in b ==> v.path != w.path
    ensures DistinctPaths(a + b)
  {
    forall i, j | 0 <= i < j < |a + b|
      ensures (a + b)[i].path != (a + b)[j].path
    {
      if i < |a| <= j {
        assert a[i] in a && b[j - |a|] in b;
      }
    }
  }

  /** No path is visited twice. */
  lemma {:induction false} EachPathOnce(fs: FileSystem, path: CString)
    requires Proper(fs)
    ensures DistinctPaths(Walk(fs, path))
    decreases Depth(fs, path), 1, 0
  {
    if path in fs && fs[path].Directory? && fs[path].readable {
      var names := fs[path].names;
      EachNameOnce(fs, path, names);
      forall w | w in WalkNames(fs, path, names)
        ensures w.path != path
      {
        NameVisitsAreUnder(fs, path, names, w);
      }
      DistinctConcat([Visit(path, Dir, FTW_D)], WalkNames(fs, path, names));
    }
  }

  lemma {:induction false} EachNameOnce(fs: FileSystem, path: CString, names: seq<CString>)
    requires Proper(fs) && path in fs && ProperNames(names)
    ensures DistinctPaths(WalkNames(fs, path, names))
    decreases Depth(fs, path), 0, |names|
  {
    if names != [] {
      EachNameOnce(fs, path, names[1..]);
      if !IsDot(names[0]) {
        ChildIsDeeper(fs, path, names[0]);
        EachPathOnce(fs, Child(path, names[0]));
        var first, rest := Walk(fs, Child(path, names[0])), WalkNames(fs, path, names[1..]);
        forall v, w | v in first && w in rest
          ensures v.path != w.path
        {
          VisitsAreUnder(fs, Child(path, names[0]), v);
          NameVisitsAreUnder(fs, path, names[1..], w);
          var n :| n in names[1..] && !IsDot(n) && Under(Child(path, n), w.path);
          var k :| 0 <= k < |names| - 1 && names[1..][k] == n;
          assert names[k + 1] == n;
          SiblingsApart(path, n, names[0], w.path);
        }
        DistinctConcat(first, rest);
      }
    }
  }

  lemma {:induction false} ChainSnoc(fs: FileSystem, path: CString, names: seq<CString>, name: CString)
    requires Chain(fs, path, names) && var q := Join(path, names);
             q in fs && fs[q].Directory? && fs[q].readable && name in fs[q].names && !IsDot(name)
    ensures Chain(fs, path, names + [name]) && Join(path, names + [name]) == Child(Join(path, names), name)
    decreases |names|
  {
    if names == [] {
      assert [] + [name] == [name] && [name][1..] == [];
    } else {
      assert (names + [name])[1..] == names[1..] + [name];
      ChainSnoc(fs, Child(path, names[0]), names[1..], name);
    }
  }

  /** The last name of a chain is what comes behind the last slash. */
  lemma {:induction false} LastName(fs: FileSystem, path: CString, names: seq<CString>)
    returns (q: CString, last: CString)
    requires Chain(fs, path, names) && names != []
    ensures Join(path, names) == Child(q, last) && !IsDot(last) && |path| <= |q|
    ensures q in fs && fs[q].Directory? && last in fs[q].names
    decreases |names|
  {
    if |names| == 1 {
      q, last := path, names[0];
      assert names[1..] == [];
    } else {
      q, last := LastName(fs, Child(path, names[0]), names[1..]);
    }
  }

  lemma SameLastName(q: CString, a: CString, p: CString, b: CString)
    requires Child(q, a) == Child(p, b) && '/' !in a && '/' !in b
    ensures a == b
  {
    if |a| < |b| {
      ShorterLastName(q, a, p, b);
    } else if |b| < |a| {
      ShorterLastName(p, b, q, a);
    } else {
      assert Child(q, a)[|q| + 1..] == a && Child(p, b)[|q| + 1..] == b;
    }
  }

  lemma ShorterLastName(q: CString, a: CString, p: CString, b: CString)
    requires Child(q, a) == Child(p, b) && |a| < |b|
    ensures '/' in b
  {
    assert Child(q, a)[|q|] == '/' && Child(p, b)[|q|] == b[|q| - |p| - 1];
  }

  /**
   In every readable directory that the walk reaches, the names listed are visited, except for the
   two entries for the directory itself and its parent, which are not.
   */
  lemma ListedNames(fs: FileSystem, path: CString, q: CString, name: CString)
    requires Proper(fs) && ReachedFrom(fs, path, q)
    requires q in fs && fs[q].Directory? && fs[q].readable && name in fs[q].names
    ensures (exists v :: v in Walk(fs, path) && v.flag != FTW_DNR && v.path == q + ['/'] + name)
       <==> name != ['.'] && name != ['.', '.']
  {
    var p := Child(q, name);
    VisitedIffReached(fs, path, p);
    var names :| Chain(fs, path, names) && q == Join(path, names);
    if !IsDot(name) {
      ChainSnoc(fs, path, names, name);
    } else if ReachedFrom(fs, path, p) {
      var others :| Chain(fs, path, others) && p == Join(path, others);
      JoinIsLonger(path, names);
      var parent, last := LastName(fs, path, others);
      SameLastName(q, name, parent, last);
    }
  }

  lemma {:induction false} JoinIsLonger(path: CString, names: seq<CString>)
    ensures |path| <= |Join(path, names)|
    decreases |names|
  {
    if names != [] {
      JoinIsLonger(Child(path, names[0]), names[1..]);
    }
  }

  // The order of the visits

  /** `v` is of an entry of the directory `q`, or reports that it cannot be read. */
  ghost predicate Below(q: CString, v: Visit) {
    (exists name: CString :: v.path == Child(q, name)) || v == Visit(q + SLASH, Dir, FTW_DNR)
  }

  /** An earlier visit is of the directory that visit `i` belongs to. */
  ghost predicate AfterItsDirectory(trace: seq<Visit>, i: nat) {
    i < |trace| && exists j :: 0 <= j < i && trace[j].flag == FTW_D && Below(trace[j].path, trace[i])
  }

  lemma AfterInConcat(a: seq<Visit>, b: seq<Visit>, i: nat)
    requires i < |a + b|
    ensures i < |a| && AfterItsDirectory(a, i) ==> AfterItsDirectory(a + b, i)
    ensures i >= |a| && AfterItsDirectory(b, i - |a|) ==> AfterItsDirectory(a + b, i)
  {
    if i < |a| && AfterItsDirectory(a, i) {
      var j :| 0 <= j < i && a[j].flag == FTW_D && Below(a[j].path, a[i]);
      assert (a + b)[j] == a[j];
    } else if i >= |a| && AfterItsDirectory(b, i - |a|) {
      var j :| 0 <= j < i - |a| && b[j].flag == FTW_D && Below(b[j].path, b[i - |a|]);
      assert (a + b)[|a| + j] == b[j];
    }
  }

  /** Visit `i` comes after its directory, or belongs to `path`. */
  ghost predicate Placed(path: CString, trace: seq<Visit>, i: nat) {
    i < |trace| && (AfterItsDirectory(trace, i) || Below(path, trace[i]))
  }

  ghost predicate AllPlaced(path: CString, trace: seq<Visit>) {
    forall i :: 0 <= i < |trace| ==> Placed(path, trace, i)
  }

  /** The walk is in pre-order: it begins with its path, and every directory comes before what is in it. */
  lemma {:induction false} DirectoriesFirst(fs: FileSystem, path: CString)
    ensures Walk(fs, path) != [] && Walk(fs, path)[0].path == path
    ensures forall i :: 0 < i < |Walk(fs, path)| ==> AfterItsDirectory(Walk(fs, path), i)
    decreases Depth(fs, path), 1, 0
  {
    if path in fs && fs[path].Directory? {
      var first := [Visit(path, Dir, FTW_D)];
      var rest;
      if fs[path].readable {
        rest := WalkNames(fs, path, fs[path].names);
        NamesDirectoriesFirst(fs, path, fs[path].names);
      } else {
        rest := [Visit(path + SLASH, Dir, FTW_DNR)];
        assert Below(path, rest[0]);
      }
      forall i | 0 < i < |first + rest|
        ensures AfterItsDirectory(first + rest, i)
      {
        BehindDirectory(first[0], rest, i);
      }
      assert Walk(fs, path) == first + rest;
    }
  }

  lemma BehindDirectory(v: Visit, rest: seq<Visit>, i: nat)
    requires 0 < i <= |rest| && v.flag == FTW_D
    requires Placed(v.path, rest, i - 1)
    ensures AfterItsDirectory([v] + rest, i)
  {
    AfterInConcat([v], rest, i);
    assert ([v] + rest)[0] == v && ([v] + rest)[i] == rest[i - 1];
  }

  lemma {:induction false} NamesDirectoriesFirst(fs: FileSystem, path: CString, names: seq<CString>)
    requires path in fs
    ensures AllPlaced(path, WalkNames(fs, path, names))
    decreases Depth(fs, path), 0, |names|
  {
    if names != [] {
      NamesDirectoriesFirst(fs, path, names[1..]);
      var rest := WalkNames(fs, path, names[1..]);
      if !IsDot(names[0]) {
        ChildIsDeeper(fs, path, names[0]);
        DirectoriesFirst(fs, Child(path, names[0]));
        var first := Walk(fs, Child(path, names[0]));
        assert Below(path, first[0]) by {
          assert first[0].path == Child(path, names[0]);
        }
        forall i | 0 <= i < |first + rest|
          ensures Placed(path, first + rest, i)
        {
          AfterInConcat(first, rest, i);
          if 0 < i < |first| {
            assert AfterItsDirectory(first, i);
          } else if i >= |first| {
            assert Placed(path, rest, i - |first|);
          }
        }
        assert WalkNames(fs, path, names) == first + rest;
      } else {
        assert WalkNames(fs, path, names) == WalkNames(fs, path, names[1..]);
      }
    }
  }

  /** The entries of a directory are walked in the order in which it lists them. */
  lemma {:induction false} NamesInOrder(fs: FileSystem, path: CString, names: seq<CString>,
                                        x: nat, y: nat, i: nat, j: nat)
    requires Proper(fs) && path in fs && ProperNames(names) && x < y < |names|
    requires i < |WalkNames(fs, path, names)| && Under(Child(path, names[x]), WalkNames(fs, path, names)[i].path)
    requires j < |WalkNames(fs, path, names)| && Under(Child(path, names[y]), WalkNames(fs, path, names)[j].path)
    ensures i < j
    decreases |names|
  {
    assert forall k :: 0 < k < |names| ==> names[k] == names[1..][k - 1];
    FirstNamePart(fs, path, names, i);
    FirstNamePart(fs, path, names, j);
    hide Walk, WalkNames, Under, Proper;
    var n := FirstPart(fs, path, names);
    SiblingsApartIn(path, names, 0, x, WalkNames(fs, path, names)[i].path);
    SiblingsApartIn(path, names, 0, y, WalkNames(fs, path, names)[j].path);
    if x > 0 {
      NamesInOrder(fs, path, names[1..], x - 1, y - 1, i - n, j - n);
    }
  }

  /** How many visits the first name makes. */
  function FirstPart(fs: FileSystem, path: CString, names: seq<CString>): nat
    requires path in fs && names != []
  {
    if IsDot(names[0]) then 0 else |Walk(fs, Child(path, names[0]))|
  }

  /** The visits of the first name come first, and they are the only ones below it. */
  lemma FirstNamePart(fs: FileSystem, path: CString, names: seq<CString>, k: nat)
    requires Proper(fs) && path in fs && ProperNames(names) && names != [] && k < |WalkNames(fs, path, names)|
    ensures k < FirstPart(fs, path, names) <==> Under(Child(path, names[0]), WalkNames(fs, path, names)[k].path)
    ensures k >= FirstPart(fs, path, names) ==>
              && k - FirstPart(fs, path, names) < |WalkNames(fs, path, names[1..])|
              && WalkNames(fs, path, names)[k] == WalkNames(fs, path, names[1..])[k - FirstPart(fs, path, names)]
  {
    var v, rest, n := WalkNames(fs, path, names)[k], WalkNames(fs, path, names[1..]), FirstPart(fs, path, names);
    if k < n {
      assert v in Walk(fs, Child(path, names[0]));
      VisitsAreUnder(fs, Child(path, names[0]), v);
    } else {
      assert v == rest[k - n];
      NotInRest(fs, path, names, v);
    }
  }

  lemma SiblingsApartIn(path: CString, names: seq<CString>, x: nat, y: nat, p: CString)
    requires ProperNames(names) && x <= y < |names| && Under(Child(path, names[y]), p)
    ensures x < y ==> !Under(Child(path, names[x]), p)
  {
    if x < y {
      SiblingsApart(path, names[y], names[x], p);
    }
  }

  lemma NotInRest(fs: FileSystem, path: CString, names: seq<CString>, v: Visit)
    requires Proper(fs) && path in fs && ProperNames(names) && names != [] && v in WalkNames(fs, path, names[1..])
    ensures !Under(Child(path, names[0]), v.path)
  {
    NameVisitsAreUnder(fs, path, names[1..], v);
    var n :| n in names[1..] && !IsDot(n) && Under(Child(path, n), v.path);
    var k :| 0 <= k < |names| - 1 && names[1..][k] == n;
    assert names[k + 1] == n;
    SiblingsApart(path, n, names[0], v.path);
  }

  /** A directory is reported as unreadable if and only if the walk reaches it and it is. */
  lemma UnreadableIff(fs: FileSystem, path: CString, q: CString)
    ensures Visit(q + SLASH, Dir, FTW_DNR) in Walk(fs, path)
       <==> ReachedFrom(fs, path, q) && q in fs && fs[q].Directory? && !fs[q].readable
  {
    if Visit(q + SLASH, Dir, FTW_DNR) in Walk(fs, path) {
      UnreadableIsReached(fs, path, q);
    } else if ReachedFrom(fs, path, q) && q in fs && fs[q].Directory? && !fs[q].readable {
      var names :| Chain(fs, path, names) && q == Join(path, names);
      UnreadableIsReported(fs, path, names);
    }
  }

  lemma {:induction false} UnreadableIsReached(fs: FileSystem, path: CString, q: CString)
    requires Visit(q + SLASH, Dir, FTW_DNR) in Walk(fs, path)
    ensures ReachedFrom(fs, path, q) && q in fs && fs[q].Directory? && !fs[q].readable
    decreases Depth(fs, path), 1, 0
  {
    assert Chain(fs, path, []) && Join(path, []) == path;
    var v := Visit(q + SLASH, Dir, FTW_DNR);
    if fs[path].readable {
      NameUnreadableIsReached(fs, path, fs[path].names, q);
    } else {
      assert v == Visit(path + SLASH, Dir, FTW_DNR);
      assert q == v.path[..|v.path| - 1] == path;
    }
  }

  lemma {:induction false} NameUnreadableIsReached(fs: FileSystem, path: CString, names: seq<CString>, q: CString)
    requires path in fs && fs[path].Directory? && fs[path].readable
    requires forall n :: n in names ==> n in fs[path].names
    requires Visit(q + SLASH, Dir, FTW_DNR) in WalkNames(fs, path, names)
    ensures ReachedFrom(fs, path, q) && q in fs && fs[q].Directory? && !fs[q].readable
    decreases Depth(fs, path), 0, |names|
  {
    ChildIsDeeper(fs, path, names[0]);
    if !IsDot(names[0]) && Visit(q + SLASH, Dir, FTW_DNR) in Walk(fs, Child(path, names[0])) {
      UnreadableIsReached(fs, Child(path, names[0]), q);
      ReachedThroughChild(fs, path, names[0], q);
    } else {
      NameUnreadableIsReached(fs, path, names[1..], q);
    }
  }

  lemma {:induction false} UnreadableIsReported(fs: FileSystem, path: CString, names: seq<CString>)
    requires Chain(fs, path, names) && var q := Join(path, names); q in fs && fs[q].Directory? && !fs[q].readable
    ensures Visit(Join(path, names) + SLASH, Dir, FTW_DNR) in Walk(fs, path)
    decreases |names|
  {
    if names != [] {
      UnreadableIsReported(fs, Child(path, names[0]), names[1..]);
      ChildWalkIsPart(fs, path, fs[path].names, names[0], Visit(Join(path, names) + SLASH, Dir, FTW_DNR));
    }
  }

  // How long the buffer must be

  /** What the buffer must hold at a visit; behind a directory's path, the slash and its NUL as well. */
  function Room(v: Visit): nat {
    |v.path| + if v.flag == FTW_D then 2 else 1
  }

  ghost predicate Fits(trace: seq<Visit>, len: nat) {
    forall v :: v in trace ==> Room(v) <= len
  }

  lemma FitsConcat(a: seq<Visit>, b: seq<Visit>, len: nat)
    ensures Fits(a + b, len) <==> Fits(a, len) && Fits(b, len)
  {
    assert forall v :: v in a + b <==> v in a || v in b;
  }

  /** The length that `DoPath` asks for is the least with which a walk that is not stopped stays in the buffer. */
  lemma {:induction false} NeedIsLeast(fs: FileSystem, path: CString, len: nat)
    ensures Need(fs, path) <= len <==> Fits(Walk(fs, path), len)
    decreases Depth(fs, path), 1, 0
  {
    assert forall v: Visit :: v in [v];
    if path in fs && fs[path].Directory? {
      var first := Visit(path, Dir, FTW_D);
      assert Fits([first], len) <==> |path| + 2 <= len by { assert first in [first]; }
      if fs[path].readable {
        NeedNamesIsLeast(fs, path, fs[path].names, len);
        FitsConcat([first], WalkNames(fs, path, fs[path].names), len);
      } else {
        FitsConcat([first], [Visit(path + SLASH, Dir, FTW_DNR)], len);
      }
    } else {
      assert Walk(fs, path)[0] in Walk(fs, path);
    }
  }

  lemma {:induction false} NeedNamesIsLeast(fs: FileSystem, path: CString, names: seq<CString>, len: nat)
    requires path in fs
    ensures NeedNames(fs, path, names) <= len <==> |path| + 2 <= len && Fits(WalkNames(fs, path, names), len)
    decreases Depth(fs, path), 0, |names|
  {
    if names != [] {
      NeedNamesIsLeast(fs, path, names[1..], len);
      if !IsDot(names[0]) {
        ChildIsDeeper(fs, path, names[0]);
        NeedIsLeast(fs, Child(path, names[0]), len);
        FitsConcat(Walk(fs, Child(path, names[0])), WalkNames(fs, path, names[1..]), len);
      }
    }
  }
}
