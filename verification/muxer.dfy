/**
 The path router (`Muxer`): several backend filesystems glued into one tree,
 each under its own mountpoint.  Construction sorts the mount table, derives
 the synthetic "intermediate" directories that connect the root to
 multi-segment mountpoints, and refuses a table in which one mountpoint is a
 string prefix of the next.  Dispatch takes the rightmost mountpoint that
 sorts no later than the path (`bisect_right`), checks it is a string prefix
 of the path, and hands the backend the path with that prefix removed (or `/`
 for an exact match).  The prefix test is on characters, not on segments:
 with `/discord` mounted, `/discordx/y` is routed to it as `x/y`.

 Backends are a type parameter `A`: the router never looks inside them, it
 only names which one receives which call.
 */
module Muxer {
  import opened Types
  import opened PyStr
  import opened PyDict
  import Lex

  /** The router after construction: sorted mountpoints, the table, and the intermediates. */
  datatype Mux<A> = Mux(mountpoints: seq<string>, table: map<string, A>, intermediates: seq<string>)

  /** The filesystem operations the router forwards. */
  datatype Op = Getattr | Readdir | Readlink | Read | Open | Unlink | Create | Write | Release | Truncate | Symlink

  /** One forwarded call: which backend, which operation, the stripped path, the untouched remaining arguments. */
  datatype Invocation<A, Args> = Invocation(fs: A, op: Op, path: string, args: Args)

  /** What the router does with a `getattr` or `readdir`: answers it itself, forwards it, or fails. */
  datatype Routed<A, Args, T> = Serve(value: T) | Forward(call: Invocation<A, Args>) | Fail(error: Error)

  // ----- the mount table -----

  /** Some mountpoint is a string prefix of another one (or of an equal one at another position). */
  predicate Nested(mps: seq<string>) {
    exists i, j :: 0 <= i < |mps| && 0 <= j < |mps| && i != j && StartsWith(mps[j], mps[i])
  }

  /** The check construction performs: some neighbour in sorted order is a prefix of the next. */
  predicate AdjacentNested(mps: seq<string>) {
    exists i :: 0 <= i < |mps| - 1 && StartsWith(mps[i + 1], mps[i])
  }

  /**
   On a sorted list, checking neighbours is enough: if no mountpoint is a
   prefix of its successor, none is a prefix of any other.
   */
  lemma AdjacentSuffices(mps: seq<string>)
    requires Lex.Sorted(mps)
    ensures Nested(mps) <==> AdjacentNested(mps)
  {
    if AdjacentNested(mps) {
      var i :| 0 <= i < |mps| - 1 && StartsWith(mps[i + 1], mps[i]);
      assert StartsWith(mps[i + 1], mps[i]);
    }
    if Nested(mps) {
      var i, j :| 0 <= i < |mps| && 0 <= j < |mps| && i != j && StartsWith(mps[j], mps[i]);
      if j < i {
        // the later one is a prefix of the earlier: they are equal
        Lex.PrefixLe(mps[i], mps[j]);
        Lex.LeAntisymmetric(mps[i], mps[j]);
        assert StartsWith(mps[i], mps[j]);
        i, j := j, i;
      }
      if j > i + 1 {
        Lex.Sandwich(mps[i], mps[i + 1], mps[j]);
      }
      assert StartsWith(mps[i + 1], mps[i]);
    }
  }

  // ----- intermediate directories -----

  /** `filter(len, p.split('/'))`: the non-empty segments of `p`. */
  function Segments(p: string): (r: seq<string>)
    ensures forall k :: 0 <= k < |r| ==> r[k] != "" && '/' !in r[k]
  {
    NonEmpty(Split(p, '/'))
  }

  function NonEmpty(parts: seq<string>): (r: seq<string>)
    ensures forall k :: 0 <= k < |r| ==> r[k] in parts && r[k] != ""
  {
    if |parts| == 0 then []
    else if parts[0] == "" then NonEmpty(parts[1..])
    else [parts[0]] + NonEmpty(parts[1..])
  }

  /** The running `'/'.join` of the leading segments, each with a `/` in front. */
  function Accumulate(segs: seq<string>): (r: seq<string>)
    ensures |r| == |segs|
  {
    seq(|segs|, k requires 0 <= k < |segs| => "/" + Join(segs[..k + 1], '/'))
  }

  /** Every accumulated segment-prefix of every mountpoint, in discovery order. */
  function Discovered(mps: seq<string>): seq<string> {
    if |mps| == 0 then [] else Accumulate(Segments(mps[0])) + Discovered(mps[1..])
  }

  /** The first occurrence of each value, in order. */
  function Dedup(xs: seq<string>): (r: seq<string>)
    ensures Lex.Distinct(r)
    ensures forall x :: x in r <==> x in xs
  {
    if |xs| == 0 then []
    else
      var init := Dedup(xs[..|xs| - 1]);
      assert xs == xs[..|xs| - 1] + [xs[|xs| - 1]];
      if xs[|xs| - 1] in init then init else init + [xs[|xs| - 1]]
  }

  function Without(xs: seq<string>, drop: seq<string>): (r: seq<string>)
    ensures forall x :: x in r <==> x in xs && x !in drop
  {
    if |xs| == 0 then []
    else if xs[0] in drop then Without(xs[1..], drop)
    else [xs[0]] + Without(xs[1..], drop)
  }

  /**
   The intermediates: the root plus every segment-prefix of every
   mountpoint, minus the mountpoints themselves.  The source keeps them in a
   Python `set`, whose iteration order is unspecified; this list keeps them
   in discovery order, without repeats.
   */
  function Intermediates(mps: seq<string>): (r: seq<string>)
    ensures Lex.Distinct(r)
    ensures forall x :: x in r <==> (x == "/" || x in Discovered(mps)) && x !in mps
  {
    Dedup(Without(["/"] + Discovered(mps), mps))
  }

  lemma DiscoveredContains(mps: seq<string>, i: nat, x: string)
    requires i < |mps| && x in Accumulate(Segments(mps[i]))
    ensures x in Discovered(mps)
  {
    if i > 0 {
      DiscoveredContains(mps[1..], i - 1, x);
    }
  }

  /** Splitting at the first separator: the text before it is the first piece. */
  lemma SplitAtFirst(s: string, t: string, sep: char)
    requires sep !in s
    ensures Split(s + [sep] + t, sep) == [s] + Split(t, sep)
  {
    var w := s + [sep] + t;
    assert w[|s|] == sep;
    assert forall k :: 0 <= k < |s| ==> w[k] == s[k];
    assert w[..|s|] == s && w[|s| + 1..] == t;
  }

  /**
   A mountpoint `/a/...` makes `/a` an intermediate unless `/a` is itself
   mounted: with `/slack/foo` mounted, `/slack` is an intermediate.
   */
  lemma ParentIsIntermediate(mps: seq<string>, i: nat, a: string, rest: string)
    requires i < |mps| && mps[i] == "/" + a + "/" + rest
    requires a != "" && '/' !in a
    requires "/" + a !in mps
    ensures "/" + a in Intermediates(mps)
  {
    var m := mps[i];
    assert m == "" + ['/'] + (a + ['/'] + rest);
    SplitAtFirst("", a + ['/'] + rest, '/');
    SplitAtFirst(a, rest, '/');
    var segs := Segments(m);
    assert Split(m, '/') == ["", a] + Split(rest, '/');
    var tail := Split(rest, '/');
    var parts := ["", a] + tail;
    assert parts[0] == "" && parts[1..] == [a] + tail;
    assert NonEmpty(parts) == NonEmpty([a] + tail);
    assert ([a] + tail)[0] == a && ([a] + tail)[1..] == tail;
    assert NonEmpty([a] + tail) == [a] + NonEmpty(tail);
    assert segs == [a] + NonEmpty(tail);
    assert segs[..1] == [a];
    assert Accumulate(segs)[0] == "/" + a;
    DiscoveredContains(mps, i, "/" + a);
  }

  // ----- construction -----

  /** The invariant every constructed router keeps. */
  predicate Valid<A>(mux: Mux<A>) {
    && Lex.Sorted(mux.mountpoints)
    && Lex.Distinct(mux.mountpoints)
    && (forall m :: m in mux.mountpoints ==> m in mux.table)
    && !Nested(mux.mountpoints)
    && mux.intermediates == Intermediates(mux.mountpoints)
  }

  lemma SortKeepsMembers(keys: seq<string>)
    ensures forall m :: m in Lex.Sort(keys) <==> m in keys
  {
    var mps := Lex.Sort(keys);
    forall m ensures m in mps <==> m in keys {
      assert m in mps <==> m in multiset(mps);
      assert m in keys <==> m in multiset(keys);
    }
  }

  /**
   `Muxer(map)`, with the dict given as its items (so its keys are distinct).  Fails (the source's
   `assert`) when a sorted neighbour is a prefix of the next mountpoint.
   */
  function New<A>(items: Dict<string, A>): (r: Result<Mux<A>>)
    requires Wf(items)
    ensures r.Err? ==> r.error == AssertionError
    ensures r.Ok? ==> Valid(r.value)
    ensures r.Ok? ==> forall i :: 0 <= i < |items| ==>
      items[i].0 in r.value.mountpoints && r.value.table[items[i].0] == items[i].1
    ensures r.Ok? ==> forall m :: m in r.value.mountpoints <==> m in Keys(items)
  {
    var mps := Lex.Sort(Keys(items));
    var table := AsMap(items);
    if AdjacentNested(mps) then
      Err(AssertionError)
    else
      AdjacentSuffices(mps);
      SortKeepsMembers(Keys(items));
      Ok(Mux(mps, table, Intermediates(mps)))
  }

  /**
   Construction fails exactly when some key of the table is a string prefix
   of another key.
   */
  lemma NewFailsIffNested<A>(items: Dict<string, A>)
    requires Wf(items)
    ensures New(items).Err? <==>
      exists a, b :: a in Keys(items) && b in Keys(items) && a != b && StartsWith(b, a)
  {
    SortedNeighboursNested(Keys(items));
  }

  /** The sorted-neighbour check on distinct keys detects exactly a key prefixing another. */
  lemma SortedNeighboursNested(keys: seq<string>)
    requires Lex.Distinct(keys)
    ensures AdjacentNested(Lex.Sort(keys)) <==>
      exists a, b :: a in keys && b in keys && a != b && StartsWith(b, a)
  {
    var mps := Lex.Sort(keys);
    SortKeepsMembers(keys);
    if AdjacentNested(mps) {
      var i :| 0 <= i < |mps| - 1 && StartsWith(mps[i + 1], mps[i]);
      NestedPair(keys, mps[i], mps[i + 1]);
    }
    if exists a, b :: a in keys && b in keys && a != b && StartsWith(b, a) {
      var a, b :| a in keys && b in keys && a != b && StartsWith(b, a);
      PairNested(mps, a, b);
      AdjacentSuffices(mps);
    }
  }

  lemma NestedPair(keys: seq<string>, a: string, b: string)
    requires a in keys && b in keys && a != b && StartsWith(b, a)
    ensures exists a, b :: a in keys && b in keys && a != b && StartsWith(b, a)
  {
  }

  lemma PairNested(mps: seq<string>, a: string, b: string)
    requires a in mps && b in mps && a != b && StartsWith(b, a)
    ensures Nested(mps)
  {
    var i :| 0 <= i < |mps| && mps[i] == a;
    var j :| 0 <= j < |mps| && mps[j] == b;
    assert i != j && StartsWith(mps[j], mps[i]);
  }

  // ----- dispatch -----

  /** The path a backend receives for `path` under mountpoint `m`. */
  function Remainder(path: string, m: string): (rest: string)
    requires StartsWith(path, m)
    ensures path == m ==> rest == "/"
    ensures path != m ==> path == m + rest
  {
    if path == m then "/" else path[|m|..]
  }

  /**
   `_map_path`: the rightmost mountpoint not after `path` must be a prefix of
   it; the backend then receives the remainder.  `ValueError` otherwise.
   */
  function MapPath<A>(mux: Mux<A>, path: string): (r: Result<(string, A)>)
    requires Valid(mux)
    ensures r.Err? ==> r.error == ValueError
    ensures r.Ok? ==> exists k :: (0 <= k < |mux.mountpoints| && StartsWith(path, mux.mountpoints[k])
      && r.value == (Remainder(path, mux.mountpoints[k]), mux.table[mux.mountpoints[k]]))
  {
    var i := Lex.BisectRight(mux.mountpoints, path);
    if i == 0 then Err(ValueError)
    else
      var candidate := mux.mountpoints[i - 1];
      if !StartsWith(path, candidate) then Err(ValueError)
      else Ok((Remainder(path, candidate), mux.table[candidate]))
  }

  /**
   Under the construction invariant, a mountpoint that is a prefix of the
   path is exactly the one `bisect_right` selects.
   */
  lemma MapPathSelectsPrefix<A>(mux: Mux<A>, path: string, k: nat)
    requires Valid(mux)
    requires k < |mux.mountpoints| && StartsWith(path, mux.mountpoints[k])
    ensures MapPath(mux, path) == Ok((Remainder(path, mux.mountpoints[k]), mux.table[mux.mountpoints[k]]))
  {
    var mps := mux.mountpoints;
    var i := Lex.BisectRight(mps, path);
    Lex.PrefixLe(mps[k], path);
    if i <= k {
      assert Lex.Lt(path, mps[k]);
      Lex.LeAntisymmetric(path, mps[k]);
    }
    var c := i - 1;
    if c != k {
      assert k < c;
      Lex.Sandwich(mps[k], mps[c], path);
      assert false;
    }
  }

  /** `_map_path` fails exactly when no mountpoint is a string prefix of the path. */
  lemma MapPathFailsIff<A>(mux: Mux<A>, path: string)
    requires Valid(mux)
    ensures MapPath(mux, path).Err? <==>
      forall m :: m in mux.mountpoints ==> !StartsWith(path, m)
  {
    if exists m :: m in mux.mountpoints && StartsWith(path, m) {
      var m :| m in mux.mountpoints && StartsWith(path, m);
      var k :| 0 <= k < |mux.mountpoints| && mux.mountpoints[k] == m;
      MapPathSelectsPrefix(mux, path, k);
    }
  }

  /** `fs` owns `path` through some mountpoint that prefixes it, and receives `rest`. */
  predicate RoutedTo<A(==)>(mux: Mux<A>, path: string, fs: A, rest: string) {
    exists m :: m in mux.mountpoints && m in mux.table && StartsWith(path, m)
      && fs == mux.table[m] && rest == Remainder(path, m)
  }

  /**
   Every forwarded operation: the backend owning the path receives the same
   operation and arguments with the prefix stripped; a lookup failure is a
   `ValueError`.
   */
  function Dispatch<A(==), Args>(mux: Mux<A>, op: Op, path: string, args: Args): (r: Result<Invocation<A, Args>>)
    requires Valid(mux)
    ensures r.Err? ==> r.error == ValueError && forall m :: m in mux.mountpoints ==> !StartsWith(path, m)
    ensures r.Ok? ==> r.value.op == op && r.value.args == args
    ensures r.Ok? ==> RoutedTo(mux, path, r.value.fs, r.value.path)
  {
    MapPathFailsIff(mux, path);
    match MapPath(mux, path)
    case Err(e) => Err(e)
    case Ok((rest, fs)) => Ok(Invocation(fs, op, rest, args))
  }

  /** `getattr`: intermediates are answered directly as read-only directories. */
  function GetattrOp<A(==), Args>(mux: Mux<A>, path: string, args: Args): (r: Routed<A, Args, Stat>)
    requires Valid(mux)
    ensures path in mux.intermediates ==> r == Serve(Stat(S_IFDIR + PERM_R_X, 2, None))
    ensures (path !in mux.intermediates && forall m :: m in mux.mountpoints ==> !StartsWith(path, m))
      ==> r == Fail(Os(ENOENT))
    ensures (path !in mux.intermediates && exists m :: m in mux.mountpoints && StartsWith(path, m)) ==> r.Forward?
    ensures r.Forward? ==> (path !in mux.intermediates && r.call.op == Getattr && r.call.args == args
      && RoutedTo(mux, path, r.call.fs, r.call.path))
  {
    if path in mux.intermediates then Serve(DirStat(PERM_R_X))
    else match Dispatch(mux, Getattr, path, args)
      case Err(_) => Fail(Os(ENOENT))
      case Ok(call) => Forward(call)
  }

  /** A directory path with a trailing `/`, as `readdir` prepares it. */
  function AsParent(path: string): (p: string)
    ensures EndsWith(p, "/") && StartsWith(p, path)
  {
    if EndsWith(path, "/") then path else path + "/"
  }

  /** One entry of `find_children`: `x` lies directly below `parent` and is listed as `c`. */
  predicate ChildOf(parent: string, x: string, c: string) {
    StartsWith(x, parent) && c == x[|parent|..] && '/' !in c && x != "/"
  }

  /** `find_children(ll)`: the entries of `ll` one level below `parent`, with the parent's prefix removed. */
  function Children(parent: string, entries: seq<string>): (r: seq<string>)
    ensures forall c :: c in r ==> '/' !in c
    ensures forall c :: c in r <==> exists x :: x in entries && ChildOf(parent, x, c)
  {
    if |entries| == 0 then []
    else
      var x := entries[0];
      var rest := Children(parent, entries[1..]);
      assert forall y :: y in entries <==> y == x || y in entries[1..];
      if StartsWith(x, parent) && '/' !in x[|parent|..] && x != "/" then
        assert ChildOf(parent, x, x[|parent|..]);
        [x[|parent|..]] + rest
      else
        rest
  }

  /** What an intermediate directory lists: `.`, `..`, then its child intermediates and mountpoints. */
  function IntermediateListing<A>(mux: Mux<A>, path: string): (r: seq<string>)
    ensures |r| >= 2 && r[..2] == [".", ".."]
    ensures r[2..] == Children(AsParent(path), mux.intermediates) + Children(AsParent(path), mux.mountpoints)
  {
    var parent := AsParent(path);
    var inner, mounted := Children(parent, mux.intermediates), Children(parent, mux.mountpoints);
    assert ([".", ".."] + inner + mounted)[2..] == inner + mounted;
    [".", ".."] + inner + mounted
  }

  /**
   `readdir`: an intermediate lists `.`, `..`, its child intermediates and
   its child mountpoints; anything else is forwarded.
   */
  function ReaddirOp<A(==), Args>(mux: Mux<A>, path: string, args: Args): (r: Routed<A, Args, seq<string>>)
    requires Valid(mux)
    ensures path in mux.intermediates ==> r.Serve? && |r.value| >= 2 && r.value[..2] == [".", ".."]
    ensures r.Serve? ==> forall k :: 2 <= k < |r.value| ==> '/' !in r.value[k]
    ensures r.Fail? ==> (r.error == ValueError && path !in mux.intermediates
      && forall m :: m in mux.mountpoints ==> !StartsWith(path, m))
    ensures r.Serve? <==> path in mux.intermediates
    ensures (path !in mux.intermediates && exists m :: m in mux.mountpoints && StartsWith(path, m)) ==> r.Forward?
    ensures r.Forward? ==> (path !in mux.intermediates && r.call.op == Readdir && r.call.args == args
      && RoutedTo(mux, path, r.call.fs, r.call.path))
  {
    if path in mux.intermediates then Serve(IntermediateListing(mux, path))
    else match Dispatch(mux, Readdir, path, args)
      case Err(e) => Fail(e)
      case Ok(call) => Forward(call)
  }

  /**
   The names an intermediate directory lists after `.` and `..` are exactly
   the intermediates and mountpoints one level below it; `/` is never one of
   them.
   */
  lemma ChildrenOfBoth(parent: string, xs: seq<string>, ys: seq<string>, c: string)
    ensures c in Children(parent, xs) + Children(parent, ys) <==>
      exists x :: (x in xs || x in ys) && ChildOf(parent, x, c)
  {
    assert c in Children(parent, xs) + Children(parent, ys) <==>
      c in Children(parent, xs) || c in Children(parent, ys);
  }

  lemma ReaddirListsChildren<A, Args>(mux: Mux<A>, path: string, args: Args, c: string)
    requires Valid(mux) && path in mux.intermediates
    ensures ReaddirOp(mux, path, args).Serve?
    ensures c in ReaddirOp(mux, path, args).value[2..] <==>
      exists x :: (x in mux.intermediates || x in mux.mountpoints) && ChildOf(AsParent(path), x, c)
  {
    assert ReaddirOp(mux, path, args).value == IntermediateListing(mux, path);
    ChildrenOfBoth(AsParent(path), mux.intermediates, mux.mountpoints, c);
  }

  /** `/` is never listed: not as `.` or `..`, and no child contains a `/`. */
  lemma ReaddirNeverListsRoot<A, Args>(mux: Mux<A>, path: string, args: Args)
    requires Valid(mux) && path in mux.intermediates
    ensures "/" !in ReaddirOp(mux, path, args).value
  {
    var listing := ReaddirOp(mux, path, args).value;
    assert '/' in "/";
    assert listing == [".", ".."] + listing[2..];
  }
}
