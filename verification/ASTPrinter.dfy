/** The tree drawing of a syntax tree: mutable column flags against a drawing that looks only at positions. */
module ASTPrinter {

  /** The name of a kind of node. */
  type Kind = name: string | ':' !in name

  /** A node as it is printed: its kind, what its line says about it, and the nodes visited inside it. */
  datatype Tree = Node(kind: Kind, details: string, children: seq<Tree>)

  datatype Line = Line(prefix: string, text: string)

  function Label(t: Tree): string {
    t.kind + ": " + t.details
  }

  /** A `for` statement with parts sets its flag again before its last part is left, so it sets the wrong one. */
  predicate IsFor(t: Tree) {
    t.kind == "ForStmt" && t.children != []
  }

  const COLUMNS := 32

  function Height(t: Tree): nat {
    1 + HeightAll(t.children)
  }

  function HeightAll(ts: seq<Tree>): nat {
    if ts == [] then 0 else
      var h, hs := Height(ts[0]), HeightAll(ts[1..]);
      if h > hs then h else hs
  }

  // The drawing, from positions alone. A path says of each ancestor below the root, and of the node itself, whether it is
  // the last child of its parent.

  /** A bar in each column whose ancestor has siblings to come. */
  function Columns(path: seq<bool>): string {
    if path == [] then "" else Columns(path[..|path| - 1]) + if path[|path| - 1] then "  " else "| "
  }

  function Prefix(path: seq<bool>): (p: string)
  {
    if path == [] then "" else Columns(path[..|path| - 1]) + if path[|path| - 1] then "`-" else "|-"
  }

  /** Column by column: a bar exactly where the ancestor has siblings to come. */
  lemma {:induction false} ColumnsAt(path: seq<bool>, i: nat)
    requires i < |path|
    ensures |Columns(path)| == 2 * |path| && Columns(path)[2 * i..2 * i + 2] == if path[i] then "  " else "| "
  {
    var init := path[..|path| - 1];
    if i < |path| - 1 {
      ColumnsAt(init, i);
      assert Columns(path)[2 * i..2 * i + 2] == Columns(init)[2 * i..2 * i + 2];
    } else {
      PrefixLength(init);
    }
  }

  /** Below the root a line starts with the columns of the ancestors and the node's own branch. */
  lemma {:induction false} PrefixAt(path: seq<bool>, i: nat)
    requires i < |path|
    ensures |Prefix(path)| == 2 * |path|
    ensures Prefix(path)[2 * i..2 * i + 2] ==
            if i == |path| - 1 then (if path[i] then "`-" else "|-") else if path[i] then "  " else "| "
  {
    var init := path[..|path| - 1];
    PrefixLength(path);
    PrefixLength(init);
    if i < |path| - 1 {
      ColumnsAt(init, i);
      assert Prefix(path)[2 * i..2 * i + 2] == Columns(init)[2 * i..2 * i + 2];
    }
  }

  function Draw(t: Tree, path: seq<bool>): seq<Line>
    decreases t
  {
    [Line(Prefix(path), Label(t))] + DrawAll(t.children, path)
  }

  function DrawAll(ts: seq<Tree>, path: seq<bool>): seq<Line>
    decreases ts
  {
    if ts == [] then [] else Draw(ts[0], path + [|ts| == 1]) + DrawAll(ts[1..], path)
  }

  function Text(lines: seq<Line>): string {
    if lines == [] then "" else Text(lines[..|lines| - 1]) + lines[|lines| - 1].prefix + lines[|lines| - 1].text + "\n"
  }

  // What the printer does, flags included.

  function FlagColumns(flags: seq<bool>, depth: nat): string
    requires depth <= |flags|
  {
    if depth <= 1 then "" else FlagColumns(flags, depth - 1) + if flags[depth - 1] then "| " else "  "
  }

  function FlagPrefix(flags: seq<bool>, path: seq<bool>): string
    requires |path| <= |flags|
  {
    if path == [] then "" else FlagColumns(flags, |path|) + if path[|path| - 1] then "`-" else "|-"
  }

  /** After the node's own line: the flag of a last child is cleared. */
  function Opened(flags: seq<bool>, path: seq<bool>): (r: seq<bool>)
    requires |path| < |flags|
    ensures |r| == |flags|
  {
    if path != [] && path[|path| - 1] then flags[|path| := false] else flags
  }

  /** After the node's children. */
  function Closed(t: Tree, flags: seq<bool>, path: seq<bool>): (r: seq<bool>)
    requires |path| + (if IsFor(t) then 1 else 0) < |flags|
    ensures |r| == |flags|
  {
    if IsFor(t) then flags[|path| + 1 := true] else flags[|path| := true]
  }

  /** The flags and lines a visit leaves. */
  function Print(t: Tree, flags: seq<bool>, path: seq<bool>): (r: (seq<bool>, seq<Line>))
    requires |path| + Height(t) <= |flags|
    ensures |r.0| == |flags|
    decreases t, 0
  {
    var below := PrintAll(t.children, Opened(flags, path), path);
    (Closed(t, below.0, path), [Line(FlagPrefix(flags, path), Label(t))] + below.1)
  }

  function PrintAll(ts: seq<Tree>, flags: seq<bool>, path: seq<bool>): (r: (seq<bool>, seq<Line>))
    requires |path| + 1 + HeightAll(ts) <= |flags|
    ensures |r.0| == |flags|
    decreases ts, 1
  {
    if ts == [] then (flags, []) else
      var first := Print(ts[0], flags, path + [|ts| == 1]);
      var rest := PrintAll(ts[1..], first.0, path);
      (rest.0, first.1 + rest.1)
  }

  // Where the flags go wrong.

  /** What a node does to the flag of its depth: whether it is the last child of its parent, whether it has parts, and
      whether it leaves the flag cleared. A `for` statement that comes last does, unless its parent sets the flag again
      by being one as well. */
  datatype Step = Step(depth: nat, last: bool, parts: bool, clears: bool)

  function Steps(t: Tree, depth: nat, last: bool, inFor: bool): seq<Step>
    decreases t
  {
    [Step(depth, last, t.children != [], last && IsFor(t) && !inFor)] + StepsAll(t.children, depth + 1, IsFor(t))
  }

  function StepsAll(ts: seq<Tree>, depth: nat, inFor: bool): seq<Step>
    decreases ts
  {
    if ts == [] then [] else Steps(ts[0], depth, |ts| == 1, inFor) + StepsAll(ts[1..], depth, inFor)
  }

  ghost predicate NextAtDepth(steps: seq<Step>, i: int, j: int) {
    && 0 <= i < j < |steps| && steps[j].depth == steps[i].depth
    && forall k :: i < k < j ==> steps[k].depth != steps[i].depth
  }

  /** Whenever a node leaves its flag cleared, the next node of that depth is a last child or has no parts. */
  ghost predicate FlagsHold(steps: seq<Step>) {
    forall i, j :: NextAtDepth(steps, i, j) && steps[i].clears ==> steps[j].last || !steps[j].parts
  }

  // The depths whose flag is cleared though no node being visited cleared it.

  function StaleAfter(stale: set<nat>, steps: seq<Step>): set<nat> {
    if steps == [] then stale else
      var s := steps[|steps| - 1];
      var before := StaleAfter(stale, steps[..|steps| - 1]);
      if s.clears then before + {s.depth} else before - {s.depth}
  }

  predicate Unharmed(stale: set<nat>, s: Step) {
    s.depth !in stale || s.last || !s.parts
  }

  ghost predicate AllUnharmed(stale: set<nat>, steps: seq<Step>) {
    forall j :: 0 <= j < |steps| ==> Unharmed(StaleAfter(stale, steps[..j]), steps[j])
  }

  lemma {:induction false} StaleOn(stale: set<nat>, a: seq<Step>, b: seq<Step>)
    ensures StaleAfter(stale, a + b) == StaleAfter(StaleAfter(stale, a), b)
    decreases |b|
  {
    if b == [] {
      assert a + b == a;
    } else {
      assert (a + b)[..|a + b| - 1] == a + b[..|b| - 1];
      StaleOn(stale, a, b[..|b| - 1]);
    }
  }

  lemma {:induction false} UnharmedOn(stale: set<nat>, a: seq<Step>, b: seq<Step>)
    ensures AllUnharmed(stale, a + b) <==> AllUnharmed(stale, a) && AllUnharmed(StaleAfter(stale, a), b)
  {
    hide StaleAfter, Unharmed;
    var both := a + b;
    forall j | 0 <= j < |both|
      ensures Unharmed(StaleAfter(stale, both[..j]), both[j]) ==
              if j < |a| then Unharmed(StaleAfter(stale, a[..j]), a[j])
              else Unharmed(StaleAfter(StaleAfter(stale, a), b[..j - |a|]), b[j - |a|])
    {
      if j < |a| {
        assert both[..j] == a[..j];
      } else {
        assert both[..j] == a + b[..j - |a|];
        StaleOn(stale, a, b[..j - |a|]);
      }
    }
    if AllUnharmed(stale, both) {
      forall j | 0 <= j < |a| ensures Unharmed(StaleAfter(stale, a[..j]), a[j]) {
        assert Unharmed(StaleAfter(stale, both[..j]), both[j]);
      }
      forall j | 0 <= j < |b| ensures Unharmed(StaleAfter(StaleAfter(stale, a), b[..j]), b[j]) {
        var k := j + |a|;
        assert Unharmed(StaleAfter(stale, both[..k]), both[k]);
      }
    }
  }

  /** The latest node of the depth. */
  ghost predicate LatestAtDepth(steps: seq<Step>, depth: nat, i: int) {
    0 <= i < |steps| && steps[i].depth == depth && forall k :: i < k < |steps| ==> steps[k].depth != depth
  }

  /** A depth is stale exactly if the latest node of that depth left its flag cleared. */
  lemma {:induction false} StaleExactly(steps: seq<Step>, depth: nat)
    ensures depth in StaleAfter({}, steps) <==> exists i :: LatestAtDepth(steps, depth, i) && steps[i].clears
  {
    if steps != [] {
      var init, s := steps[..|steps| - 1], steps[|steps| - 1];
      StaleExactly(init, depth);
      if s.depth == depth {
        assert LatestAtDepth(steps, depth, |steps| - 1);
      } else {
        assert forall i :: LatestAtDepth(init, depth, i) <==> LatestAtDepth(steps, depth, i);
      }
    }
  }

  lemma {:induction false} UnharmedExactly(steps: seq<Step>)
    ensures AllUnharmed({}, steps) <==> FlagsHold(steps)
  {
    hide StaleAfter;
    forall i, j | 0 <= j < |steps|
      ensures NextAtDepth(steps, i, j) <==> LatestAtDepth(steps[..j], steps[j].depth, i)
    {
    }
    forall j | 0 <= j < |steps|
      ensures Unharmed(StaleAfter({}, steps[..j]), steps[j]) <==>
              forall i :: NextAtDepth(steps, i, j) && steps[i].clears ==> steps[j].last || !steps[j].parts
    {
      StaleExactly(steps[..j], steps[j].depth);
    }
  }

  ghost predicate NoneAbove(steps: seq<Step>, depth: nat) {
    forall i :: 0 <= i < |steps| ==> steps[i].depth >= depth
  }

  lemma {:induction false} StepsBelow(t: Tree, depth: nat, last: bool, inFor: bool)
    ensures NoneAbove(Steps(t, depth, last, inFor), depth)
    decreases t, 0
  {
    StepsAllBelow(t.children, depth + 1, IsFor(t));
  }

  lemma {:induction false} StepsAllBelow(ts: seq<Tree>, depth: nat, inFor: bool)
    ensures NoneAbove(StepsAll(ts, depth, inFor), depth)
    decreases ts, 1
  {
    if ts != [] {
      StepsBelow(ts[0], depth, |ts| == 1, inFor);
      StepsAllBelow(ts[1..], depth, inFor);
    }
  }

  lemma {:induction false} OthersStay(stale: set<nat>, steps: seq<Step>, depth: nat)
    requires NoneAbove(steps, depth + 1)
    ensures depth in StaleAfter(stale, steps) <==> depth in stale
    decreases |steps|
  {
    if steps != [] {
      OthersStay(stale, steps[..|steps| - 1], depth);
    }
  }

  /** After a node its depth is stale exactly if the node left it so. */
  lemma {:induction false} OwnStale(t: Tree, depth: nat, last: bool, inFor: bool, stale: set<nat>)
    ensures depth in StaleAfter(stale, Steps(t, depth, last, inFor)) <==> last && IsFor(t) && !inFor
    ensures var own := Step(depth, last, t.children != [], last && IsFor(t) && !inFor);
            var next := if own.clears then stale + {depth} else stale - {depth};
            && StaleAfter(stale, Steps(t, depth, last, inFor)) == StaleAfter(next, StepsAll(t.children, depth + 1, IsFor(t)))
            && (AllUnharmed(stale, Steps(t, depth, last, inFor)) <==>
                Unharmed(stale, own) && AllUnharmed(next, StepsAll(t.children, depth + 1, IsFor(t))))
  {
    var own := Step(depth, last, t.children != [], last && IsFor(t) && !inFor);
    var next := if own.clears then stale + {depth} else stale - {depth};
    var below := StepsAll(t.children, depth + 1, IsFor(t));
    assert StaleAfter(stale, [own]) == next by {
      assert [own][..0] == [];
    }
    assert AllUnharmed(stale, [own]) <==> Unharmed(stale, own) by {
      assert [own][..0] == [] && StaleAfter(stale, []) == stale;
    }
    StaleOn(stale, [own], below);
    UnharmedOn(stale, [own], below);
    StepsAllBelow(t.children, depth + 1, IsFor(t));
    OthersStay(next, below, depth);
  }

  /** The parts of a `for` statement leave no flag of theirs stale. */
  lemma {:induction false} NoneStaleInFor(ts: seq<Tree>, depth: nat, stale: set<nat>)
    requires ts != []
    ensures depth !in StaleAfter(stale, StepsAll(ts, depth, true))
    decreases ts
  {
    var first := Steps(ts[0], depth, |ts| == 1, true);
    OwnStale(ts[0], depth, |ts| == 1, true, stale);
    StaleOn(stale, first, StepsAll(ts[1..], depth, true));
    if |ts| > 1 {
      NoneStaleInFor(ts[1..], depth, StaleAfter(stale, first));
    }
  }

  // Flags say what positions say, but for stale ones.

  predicate Last(path: seq<bool>) {
    path != [] && path[|path| - 1]
  }

  /** Before a node: each ancestor's flag is set unless it is a last child; from the node's depth on, unless stale.
      Nothing is said of the node's own depth if `open` holds. */
  ghost predicate Match(flags: seq<bool>, path: seq<bool>, stale: set<nat>, open: bool) {
    && |path| < |flags| && flags[0]
    && (forall i :: 1 <= i < |path| ==> flags[i] == !path[i - 1])
    && (forall i :: 1 <= i < |flags| && |path| <= i ==> (i == |path| && open) || flags[i] == (i !in stale))
  }

  /** The same once the node has been entered, before a part of it. */
  ghost predicate MatchBelow(flags: seq<bool>, path: seq<bool>, stale: set<nat>, open: bool) {
    && |path| < |flags| && flags[0]
    && (forall i :: 1 <= i <= |path| ==> flags[i] == !path[i - 1])
    && (forall i :: |path| < i < |flags| ==> (i == |path| + 1 && open) || flags[i] == (i !in stale))
  }

  lemma {:induction false} MatchColumns(flags: seq<bool>, path: seq<bool>, depth: nat)
    requires |path| < |flags| && depth <= |path| && forall i :: 1 <= i < depth ==> flags[i] == !path[i - 1]
    ensures depth > 0 ==> FlagColumns(flags, depth) == Columns(path[..depth - 1])
  {
    if depth > 1 {
      MatchColumns(flags, path, depth - 1);
      assert path[..depth - 1][..depth - 2] == path[..depth - 2];
    }
  }

  /** The printer's lines against the drawing's: one by one with the same line and indentation. */
  ghost predicate SameShape(a: seq<Line>, b: seq<Line>) {
    |a| == |b| && forall i :: 0 <= i < |a| ==> a[i].text == b[i].text && |a[i].prefix| == |b[i].prefix|
  }

  lemma {:induction false} ColumnsLength(flags: seq<bool>, depth: nat)
    requires depth <= |flags|
    ensures |FlagColumns(flags, depth)| == if depth == 0 then 0 else 2 * (depth - 1)
  {
    if depth > 1 {
      ColumnsLength(flags, depth - 1);
    }
  }

  lemma {:induction false} ShapesTogether(a: seq<Line>, b: seq<Line>, a': seq<Line>, b': seq<Line>)
    requires SameShape(a, b) && SameShape(a', b')
    ensures SameShape(a + a', b + b')
  {
  }

  lemma {:induction false} OwnLineShape(t: Tree, flags: seq<bool>, path: seq<bool>)
    requires |path| < |flags|
    ensures SameShape([Line(FlagPrefix(flags, path), Label(t))], [Line(Prefix(path), Label(t))])
  {
    ColumnsLength(flags, |path|);
    PrefixLength(path);
  }

  lemma {:induction false} PrintShape(t: Tree, flags: seq<bool>, path: seq<bool>)
    requires |path| + Height(t) <= |flags|
    ensures SameShape(Print(t, flags, path).1, Draw(t, path))
    decreases t, 0
  {
    hide HeightAll, SameShape, FlagPrefix, Prefix, DrawAll, PrintAll, Label;
    OwnLineShape(t, flags, path);
    DrawHead(t, path);
    PrintShapeAll(t.children, Opened(flags, path), path);
    ShapesTogether([Line(FlagPrefix(flags, path), Label(t))], [Line(Prefix(path), Label(t))],
                   PrintAll(t.children, Opened(flags, path), path).1, DrawAll(t.children, path));
  }

  lemma {:induction false} PrintShapeAll(ts: seq<Tree>, flags: seq<bool>, path: seq<bool>)
    requires |path| + 1 + HeightAll(ts) <= |flags|
    ensures SameShape(PrintAll(ts, flags, path).1, DrawAll(ts, path))
    decreases ts, 1
  {
    hide Height, Draw, Print;
    if ts != [] {
      var inner := path + [|ts| == 1];
      var first := Print(ts[0], flags, inner);
      PrintShape(ts[0], flags, inner);
      PrintShapeAll(ts[1..], first.0, path);
      ShapesTogether(first.1, Draw(ts[0], inner), PrintAll(ts[1..], first.0, path).1, DrawAll(ts[1..], path));
    }
  }

  lemma {:induction false} SameParts<T>(a: seq<T>, a': seq<T>, b: seq<T>, b': seq<T>)
    requires |a| == |a'|
    ensures a + b == a' + b' <==> a == a' && b == b'
  {
    if a + b == a' + b' {
      assert a == (a + b)[..|a|] && a' == (a' + b')[..|a|];
      assert b == (a + b)[|a|..] && b' == (a' + b')[|a|..];
    }
  }

  /** The lines of a node are the drawing exactly if none of its steps meets a stale flag that it shows. */
  lemma {:induction false} PrintAgrees(t: Tree, flags: seq<bool>, path: seq<bool>, stale: set<nat>, inFor: bool)
    requires |path| + Height(t) <= |flags| && Match(flags, path, stale, false) && (path == [] ==> 0 !in stale)
    ensures var steps := Steps(t, |path|, Last(path), inFor);
            && (Print(t, flags, path).1 == Draw(t, path) <==> AllUnharmed(stale, steps))
            && (AllUnharmed(stale, steps) ==>
                  Match(Print(t, flags, path).0, path, StaleAfter(stale, steps), Last(path) && IsFor(t) && inFor))
    decreases t, 0
  {
    hide HeightAll, Draw, DrawAll, AllUnharmed, StaleAfter, Steps, StepsAll, PrintAll, Closed, FlagPrefix, Prefix, Label;
    ChildrenHeight(t);
    OwnPrefix(flags, path);
    DrawHead(t, path);
    OwnStale(t, |path|, Last(path), inFor, stale);
    var own, entered := [Line(Prefix(path), Label(t))], Opened(flags, path);
    var below := PrintAll(t.children, entered, path);
    SameParts(own, own, below.1, DrawAll(t.children, path));
    var clears := Last(path) && IsFor(t) && !inFor;
    var next := if clears then stale + {|path|} else stale - {|path|};
    if t.children == [] {
      NothingBelow(entered, path, next);
      ClosedMatches(t, entered, path, next, inFor);
    } else if Unharmed(stale, Step(|path|, Last(path), true, clears)) {
      EnteredMatches(flags, path, stale, next);
      PrintAgreesAll(t.children, entered, path, next, IsFor(t));
      if IsFor(t) {
        NoneStaleInFor(t.children, |path| + 1, next);
      }
      if AllUnharmed(next, StepsAll(t.children, |path| + 1, IsFor(t))) {
        ClosedMatches(t, below.0, path, StaleAfter(stale, Steps(t, |path|, Last(path), inFor)), inFor);
      }
    } else {
      LostBar(t.children, flags, path);
    }
  }

  lemma {:induction false} OwnPrefix(flags: seq<bool>, path: seq<bool>)
    requires |path| < |flags| && forall i :: 1 <= i < |path| ==> flags[i] == !path[i - 1]
    ensures FlagPrefix(flags, path) == Prefix(path)
  {
    MatchColumns(flags, path, |path|);
  }

  lemma {:induction false} EnteredMatches(flags: seq<bool>, path: seq<bool>, stale: set<nat>, stale': set<nat>)
    requires Match(flags, path, stale, false) && (path != [] && !Last(path) ==> |path| !in stale)
    requires forall i: nat :: i > |path| ==> (i in stale <==> i in stale')
    ensures MatchBelow(Opened(flags, path), path, stale', false)
  {
  }

  /** Closing a node sets its flag again, and with it the one its last part may have left open. */
  lemma {:induction false} ClosedMatches(t: Tree, flags: seq<bool>, path: seq<bool>, stale: set<nat>, inFor: bool)
    requires |path| + (if IsFor(t) then 1 else 0) < |flags| && flags[0]
    requires forall i :: 1 <= i < |path| ==> flags[i] == !path[i - 1]
    requires forall i :: |path| < i < |flags| ==> (i == |path| + 1 && IsFor(t)) || flags[i] == (i !in stale)
    requires IsFor(t) ==> |path| + 1 !in stale && (path == [] || flags[|path|] == !Last(path))
    requires |path| in stale <==> Last(path) && IsFor(t) && !inFor
    ensures Match(Closed(t, flags, path), path, stale, Last(path) && IsFor(t) && inFor)
  {
  }

  lemma {:induction false} NothingBelow(flags: seq<bool>, path: seq<bool>, stale: set<nat>)
    requires |path| < |flags|
    ensures HeightAll([]) == 0 && PrintAll([], flags, path) == (flags, []) && DrawAll([], path) == []
    ensures StepsAll([], |path| + 1, false) == [] && AllUnharmed(stale, []) && StaleAfter(stale, []) == stale
  {
  }

  lemma {:induction false} ChildrenHeight(t: Tree)
    ensures t.children != [] ==> HeightAll(t.children) >= 1
  {
  }

  lemma {:induction false} DrawHead(t: Tree, path: seq<bool>)
    ensures Draw(t, path) == [Line(Prefix(path), Label(t))] + DrawAll(t.children, path)
  {
  }

  /** A stale flag takes the bar from the first child of a node that has siblings to come. */
  lemma {:induction false} LostBar(ts: seq<Tree>, flags: seq<bool>, path: seq<bool>)
    requires ts != [] && |path| + 1 + HeightAll(ts) <= |flags| && path != [] && !Last(path) && !flags[|path|]
    requires forall i :: 1 <= i < |path| ==> flags[i] == !path[i - 1]
    ensures PrintAll(ts, flags, path).1 != DrawAll(ts, path)
  {
    var inner := path + [|ts| == 1];
    MatchColumns(flags, path, |path|);
    ColumnsLength(flags, |path|);
    assert inner[..|inner| - 1] == path;
    var k := 2 * (|path| - 1);
    assert FlagPrefix(flags, inner)[k] == ' ' && Prefix(inner)[k] == '|';
    var first := Print(ts[0], flags, inner);
    assert first.1[0].prefix == FlagPrefix(flags, inner) && PrintAll(ts, flags, path).1[0] == first.1[0];
    PrintShapeAll(ts, flags, path);
    DrawHead(ts[0], inner);
    assert DrawAll(ts, path)[0].prefix == Prefix(inner);
  }

  lemma {:induction false} PrintAgreesAll(ts: seq<Tree>, flags: seq<bool>, path: seq<bool>, stale: set<nat>, inFor: bool)
    requires ts != [] && |path| + 1 + HeightAll(ts) <= |flags| && MatchBelow(flags, path, stale, false)
    ensures var steps := StepsAll(ts, |path| + 1, inFor);
            && (PrintAll(ts, flags, path).1 == DrawAll(ts, path) <==> AllUnharmed(stale, steps))
            && (AllUnharmed(stale, steps) ==>
                  MatchBelow(PrintAll(ts, flags, path).0, path, StaleAfter(stale, steps), inFor))
    decreases ts, 1
  {
    hide Draw, Print, Steps, AllUnharmed, StaleAfter;
    var inner, depth, others := path + [|ts| == 1], |path| + 1, ts[1..];
    var first := Print(ts[0], flags, inner);
    var steps := Steps(ts[0], depth, |ts| == 1, inFor);
    PrintAgrees(ts[0], flags, inner, stale, inFor);
    PrintShape(ts[0], flags, inner);
    UnharmedOn(stale, steps, StepsAll(others, depth, inFor));
    StaleOn(stale, steps, StepsAll(others, depth, inFor));
    SameParts(first.1, Draw(ts[0], inner), PrintAll(others, first.0, path).1, DrawAll(others, path));
    if others == [] {
      NothingBelow(first.0, path, StaleAfter(stale, steps));
    } else if AllUnharmed(stale, steps) {
      PrintAgreesAll(others, first.0, path, StaleAfter(stale, steps), inFor);
    }
  }

  ghost predicate AllSet(flags: seq<bool>) {
    forall i :: 0 <= i < |flags| ==> flags[i]
  }

  /** The printer draws a tree exactly if the flags hold; and then every flag is set again unless some step clears one. */
  lemma {:induction false} PrintDrawsExactly(t: Tree, flags: seq<bool>)
    requires Height(t) <= |flags| && AllSet(flags)
    ensures Print(t, flags, []).1 == Draw(t, []) <==> FlagsHold(Steps(t, 0, false, false))
  {
    hide HeightAll, Print, Draw, Steps;
    PrintAgrees(t, flags, [], {}, false);
    UnharmedExactly(Steps(t, 0, false, false));
  }

  /** Where no step of a node clears a flag, the node is drawn and the flags end as they were. */
  lemma {:induction false} PrintRestores(t: Tree, flags: seq<bool>, path: seq<bool>)
    requires |path| + Height(t) <= |flags| && Match(flags, path, {}, false)
    requires NoneClears(Steps(t, |path|, Last(path), false))
    ensures Print(t, flags, path) == (flags, Draw(t, path))
  {
    hide HeightAll, Print, Draw, Steps, StaleAfter;
    var steps := Steps(t, |path|, Last(path), false);
    PrintAgrees(t, flags, path, {}, false);
    UnharmedExactly(steps);
    forall d | d in StaleAfter({}, steps) ensures false {
      StaleExactly(steps, d);
    }
    assert StaleAfter({}, steps) == {};
    var after := Print(t, flags, path).0;
    assert FlagsHold(steps);
    assert Print(t, flags, path).1 == Draw(t, path);
    assert forall i :: 0 <= i < |flags| ==> after[i] == flags[i];
    assert after == flags;
  }

  ghost predicate NoneClears(steps: seq<Step>) {
    forall i :: 0 <= i < |steps| ==> !steps[i].clears
  }

  /** A tree without `for` statements clears no flag. */
  lemma {:induction false} NoneClearsWithoutFor(t: Tree, depth: nat, last: bool, inFor: bool)
    requires NoFor(t)
    ensures NoneClears(Steps(t, depth, last, inFor))
    decreases t, 0
  {
    NoneClearsWithoutForAll(t.children, depth + 1, IsFor(t));
  }

  lemma {:induction false} NoneClearsWithoutForAll(ts: seq<Tree>, depth: nat, inFor: bool)
    requires forall t :: t in ts ==> NoFor(t)
    ensures NoneClears(StepsAll(ts, depth, inFor))
    decreases ts, 1
  {
    if ts != [] {
      NoneClearsWithoutFor(ts[0], depth, |ts| == 1, inFor);
      NoneClearsWithoutForAll(ts[1..], depth, inFor);
    }
  }

  ghost predicate NoFor(t: Tree) {
    t.kind != "ForStmt" && forall c :: c in t.children ==> NoFor(c)
  }

  // The printer over its own state.

  class ASTPrinterVisitor {
    var depth: nat
    var output: string
    var depthFlag: seq<bool>
    var isLast: seq<bool>

    constructor ()
      ensures depth == 0 && output == "" && depthFlag == seq(COLUMNS, _ => true) && isLast == [false]
    {
      depth, output, depthFlag, isLast := 0, "", seq(COLUMNS, _ => true), [false];
    }

    /** The stack has one entry more than the depth, for the root. */
    ghost predicate AtPath(path: seq<bool>)
      reads this`depth, this`isLast
    {
      depth == |path| && isLast == [false] + path
    }

    method PrintNodePrefix(ghost path: seq<bool>)
      requires AtPath(path) && depth < |depthFlag|
      modifies this`output, this`depthFlag
      ensures output == old(output) + FlagPrefix(old(depthFlag), path)
      ensures depthFlag == Opened(old(depthFlag), path)
    {
      ghost var printed := output;
      var i := 1;
      while i < depth
        invariant 1 <= i && (depth > 0 ==> i <= depth)
        invariant depthFlag == old(depthFlag)
        invariant output == printed + FlagColumns(depthFlag, if i <= depth then i else 0)
      {
        if depthFlag[i] {
          output := output + "| ";
        } else {
          output := output + "  ";
        }
        i := i + 1;
      }
      if depth == 0 {
      } else if isLast[|isLast| - 1] {
        output := output + "`-";
        depthFlag := depthFlag[depth := false];
      } else {
        output := output + "|-";
      }
    }

    /** What every visit does: the node's own line, each part inside a scope that says whether it is the last one, and the
        node's flag set again; for a `for` statement that happens before the scope of its last part is left. */
    method Visit(t: Tree, ghost path: seq<bool>)
      requires AtPath(path) && |path| + Height(t) <= |depthFlag|
      modifies this
      ensures AtPath(path)
      ensures depthFlag == Print(t, old(depthFlag), path).0
      ensures output == old(output) + Text(Print(t, old(depthFlag), path).1)
      decreases t
    {
      hide Print, PrintAll, Text, FlagPrefix, Opened, Closed, Height, HeightAll;
      ghost var flags, printed := depthFlag, output;
      VisitUnfolds(t, flags, path, printed);
      PrintNodePrefix(path);
      output := output + Label(t) + "\n";
      ghost var below, own := depthFlag, output;
      var n := |t.children|;
      assert t.children[0..] == t.children;
      for i := 0 to n
        invariant AtPath(if i == n && IsFor(t) then path + [true] else path) && |depthFlag| == |flags|
        invariant |path| + 1 + HeightAll(t.children[i..]) <= |depthFlag|
        invariant PrintAll(t.children[i..], depthFlag, path).0 == PrintAll(t.children, below, path).0
        invariant output + Text(PrintAll(t.children[i..], depthFlag, path).1) == own + Text(PrintAll(t.children, below, path).1)
      {
        NextChild(t.children, i, depthFlag, path, output);
        isLast := isLast + [i == n - 1];
        depth := depth + 1;
        Visit(t.children[i], path + [i == n - 1]);
        if !(IsFor(t) && i == n - 1) {
          isLast := isLast[..|isLast| - 1];
          depth := depth - 1;
        }
      }
      NoneLeft(t.children, depthFlag, path, output);
      depthFlag := depthFlag[depth := true];
      if IsFor(t) {
        isLast := isLast[..|isLast| - 1];
        depth := depth - 1;
      }
    }
  }

  lemma {:induction false} VisitUnfolds(t: Tree, flags: seq<bool>, path: seq<bool>, printed: string)
    requires |path| + Height(t) <= |flags|
    ensures |path| < |flags| && |path| + 1 + HeightAll(t.children) <= |flags|
            && (t.children != [] ==> |path| + 1 < |flags|)
    ensures var below := PrintAll(t.children, Opened(flags, path), path);
            && Print(t, flags, path).0 == below.0[if IsFor(t) then |path| + 1 else |path| := true]
            && printed + Text(Print(t, flags, path).1) == printed + FlagPrefix(flags, path) + Label(t) + "\n" + Text(below.1)
  {
    hide PrintAll, Opened, FlagPrefix;
    ChildrenHeight(t);
    var below := PrintAll(t.children, Opened(flags, path), path);
    TextJoined([Line(FlagPrefix(flags, path), Label(t))], below.1);
    OneLine(printed, Line(FlagPrefix(flags, path), Label(t)));
  }

  lemma {:induction false} NoneLeft(ts: seq<Tree>, flags: seq<bool>, path: seq<bool>, printed: string)
    requires |path| + 1 <= |flags|
    ensures ts[|ts|..] == [] && HeightAll([]) == 0
    ensures PrintAll([], flags, path).0 == flags && printed + Text(PrintAll([], flags, path).1) == printed
  {
  }

  lemma {:induction false} NextChild(ts: seq<Tree>, i: nat, flags: seq<bool>, path: seq<bool>, printed: string)
    requires i < |ts| && |path| + 1 + HeightAll(ts[i..]) <= |flags|
    ensures |path| + 1 + Height(ts[i]) <= |flags| && |path| + 1 + HeightAll(ts[i + 1..]) <= |flags|
    ensures var first := Print(ts[i], flags, path + [i == |ts| - 1]);
            && PrintAll(ts[i..], flags, path).0 == PrintAll(ts[i + 1..], first.0, path).0
            && printed + Text(PrintAll(ts[i..], flags, path).1) ==
               printed + Text(first.1) + Text(PrintAll(ts[i + 1..], first.0, path).1)
  {
    hide Print, Height;
    assert ts[i..][1..] == ts[i + 1..] && ts[i..][0] == ts[i];
    assert path + [|ts[i..]| == 1] == path + [i == |ts| - 1];
    var first := Print(ts[i], flags, path + [i == |ts| - 1]);
    TextJoined(first.1, PrintAll(ts[i + 1..], first.0, path).1);
  }

  lemma {:induction false} TextJoined(a: seq<Line>, b: seq<Line>)
    ensures Text(a + b) == Text(a) + Text(b)
    decreases |b|
  {
    if b == [] {
      assert a + b == a;
    } else {
      var init, l := b[..|b| - 1], b[|b| - 1];
      assert (a + b)[..|a + b| - 1] == a + init;
      TextJoined(a, init);
    }
  }

  lemma {:induction false} OneLine(printed: string, l: Line)
    ensures printed + l.prefix + l.text + "\n" == printed + Text([l])
  {
  }

  // Text and lines.

  /** Lines of one shape make the same text only if they are the same lines. */
  lemma {:induction false} SameTextSameLines(a: seq<Line>, b: seq<Line>)
    requires SameShape(a, b)
    ensures Text(a) == Text(b) <==> a == b
    decreases |a|
  {
    if a != [] && Text(a) == Text(b) {
      var n := |a| - 1;
      var i, l, j, m := Text(a[..n]), a[n], Text(b[..n]), b[n];
      SameTextSameLines(a[..n], b[..n]);
      TextLength(a[..n], b[..n]);
      assert Text(a) == i + (l.prefix + (l.text + "\n")) && Text(b) == j + (m.prefix + (m.text + "\n"));
      SameParts(i, j, l.prefix + (l.text + "\n"), m.prefix + (m.text + "\n"));
      SameParts(l.prefix, m.prefix, l.text + "\n", m.text + "\n");
      assert a == a[..n] + [l] && b == b[..n] + [m];
    }
  }

  lemma {:induction false} TextLength(a: seq<Line>, b: seq<Line>)
    requires SameShape(a, b)
    ensures |Text(a)| == |Text(b)|
    decreases |a|
  {
    if a != [] {
      TextLength(a[..|a| - 1], b[..|b| - 1]);
    }
  }

  /** Printing a whole tree that fits the flags: the text is the drawing exactly if the flags hold, as they do in any tree
      without `for` statements. */
  method PrintTree(root: Tree) returns (text: string)
    requires Height(root) <= COLUMNS
    ensures text == Text(Draw(root, [])) <==> FlagsHold(Steps(root, 0, false, false))
    ensures NoFor(root) ==> text == Text(Draw(root, []))
  {
    hide Draw, Text, Print, HeightAll, NoFor, Steps, FlagsHold;
    var visitor := new ASTPrinterVisitor();
    ghost var flags := visitor.depthFlag;
    visitor.Visit(root, []);
    text := visitor.output;
    assert AllSet(flags);
    PrintDrawsExactly(root, flags);
    PrintShape(root, flags, []);
    SameTextSameLines(Print(root, flags, []).1, Draw(root, []));
    if NoFor(root) {
      NoneClearsWithoutFor(root, 0, false, false);
      NoneClearsHolds(Steps(root, 0, false, false));
    }
  }

  lemma {:induction false} NoneClearsHolds(steps: seq<Step>)
    requires NoneClears(steps)
    ensures FlagsHold(steps)
  {
  }

  /** A `for` statement that comes last costs a later node of the same depth the bar it owes its parts. */
  lemma {:induction false} LastForLosesBar()
    ensures var body, leaf := Node("BlockStmt", "", []), Node("DeclRefExpr", "", []);
            var loop, call := Node("ForStmt", "", [body]), Node("CallExpr", "", [leaf]);
            var left, right := Node("BlockStmt", "", [loop]), Node("BlockStmt", "", [call, leaf]);
            var root := Node("BlockStmt", "", [left, right]);
            Height(root) == 4 && !FlagsHold(Steps(root, 0, false, false))
  {
    hide Height, HeightAll, Steps, StepsAll, FlagsHold;
    var body, leaf := Node("BlockStmt", "", []), Node("DeclRefExpr", "", []);
    var loop, call := Node("ForStmt", "", [body]), Node("CallExpr", "", [leaf]);
    var left, right := Node("BlockStmt", "", [loop]), Node("BlockStmt", "", [call, leaf]);
    var root := Node("BlockStmt", "", [left, right]);
    assert "BlockStmt"[0] != "ForStmt"[0] && "CallExpr"[0] != "ForStmt"[0];
    LoopBeforeCall(body, loop, left, leaf, call, right, root);
  }

  lemma {:induction false} LoopBeforeCall(body: Tree, loop: Tree, left: Tree, leaf: Tree, call: Tree, right: Tree, root: Tree)
    requires body.children == [] && loop.children == [body] && IsFor(loop) && left.children == [loop] && !IsFor(left)
    requires leaf.children == [] && call.children == [leaf] && !IsFor(call) && right.children == [call, leaf] && !IsFor(right)
    requires root.children == [left, right] && !IsFor(root)
    ensures Height(root) == 4 && !FlagsHold(Steps(root, 0, false, false))
  {
    hide Height, HeightAll, Steps, StepsAll, FlagsHold, IsFor;
    NoParts(body, 3, true, true);
    NoParts(leaf, 3, true, false);
    NoParts(leaf, 2, true, false);
    OnePart(loop, 2, true, false);
    OnePart(left, 1, false, false);
    OnePart(call, 2, false, false);
    TwoParts(right, 1, true, false);
    TwoParts(root, 0, false, false);
    var l, r := Steps(left, 1, false, false), Steps(right, 1, true, false);
    assert |l| == 3 && l[1] == Step(2, true, true, true) && l[2].depth == 3;
    assert |r| >= 2 && r[0].depth == 1 && r[1] == Step(2, false, true, false);
    MeetsStale([Step(0, false, true, false)], l, r);
  }

  lemma {:induction false} MeetsStale(own: seq<Step>, l: seq<Step>, r: seq<Step>)
    requires |own| == 1 && |l| == 3 && l[1].clears && l[1].depth == 2 && l[2].depth != 2
    requires |r| >= 2 && r[0].depth != 2 && r[1].depth == 2 && !r[1].last && r[1].parts
    ensures !FlagsHold(own + l + r)
  {
    var steps := own + l + r;
    assert steps[2] == l[1] && steps[3] == l[2] && steps[4] == r[0] && steps[5] == r[1];
    assert NextAtDepth(steps, 2, 5);
  }

  lemma {:induction false} NoParts(t: Tree, depth: nat, last: bool, inFor: bool)
    requires t.children == []
    ensures Height(t) == 1 && Steps(t, depth, last, inFor) == [Step(depth, last, false, false)]
  {
  }

  lemma {:induction false} OnePart(t: Tree, depth: nat, last: bool, inFor: bool)
    requires |t.children| == 1
    ensures Height(t) == 1 + Height(t.children[0])
    ensures Steps(t, depth, last, inFor) == [Step(depth, last, true, last && IsFor(t) && !inFor)]
                                            + Steps(t.children[0], depth + 1, true, IsFor(t))
  {
    var part := Steps(t.children[0], depth + 1, true, IsFor(t));
    assert t.children[1..] == [] && HeightAll([]) == 0 && part + [] == part;
    assert StepsAll(t.children, depth + 1, IsFor(t)) == part && t.children != [];
  }

  lemma {:induction false} TwoParts(t: Tree, depth: nat, last: bool, inFor: bool)
    requires |t.children| == 2
    ensures var h, k := Height(t.children[0]), Height(t.children[1]);
            Height(t) == 1 + if h > k then h else k
    ensures Steps(t, depth, last, inFor) == [Step(depth, last, true, last && IsFor(t) && !inFor)]
                                            + Steps(t.children[0], depth + 1, false, IsFor(t))
                                            + Steps(t.children[1], depth + 1, true, IsFor(t))
  {
    var own := [Step(depth, last, true, last && IsFor(t) && !inFor)];
    var first, second := Steps(t.children[0], depth + 1, false, IsFor(t)), Steps(t.children[1], depth + 1, true, IsFor(t));
    assert t.children[1..][0] == t.children[1] && t.children[1..][1..] == [] && second + [] == second;
    assert StepsAll(t.children[1..], depth + 1, IsFor(t)) == second;
    assert StepsAll(t.children, depth + 1, IsFor(t)) == first + second;
    assert own + (first + second) == own + first + second;
    assert HeightAll(t.children[1..]) == Height(t.children[1]);
  }


  // The drawing determines the tree.

  lemma {:induction false} PrefixLength(path: seq<bool>)
    ensures |Columns(path)| == 2 * |path| && |Prefix(path)| == 2 * |path|
  {
    if path != [] {
      PrefixLength(path[..|path| - 1]);
    }
  }

  /** How many leading lines are indented further than `depth`. */
  function Deeper(lines: seq<Line>, depth: nat): (n: nat)
    ensures n <= |lines|
  {
    if lines == [] || |lines[0].prefix| <= 2 * depth then 0 else 1 + Deeper(lines[1..], depth)
  }

  function KindOf(line: string): (k: Kind)
    ensures |k| <= |line|
  {
    if line == "" || line[0] == ':' then "" else [line[0]] + KindOf(line[1..])
  }

  function DetailsOf(line: string): string {
    if |KindOf(line)| + 2 <= |line| then line[|KindOf(line)| + 2..] else ""
  }

  lemma {:induction false} LabelReads(kind: Kind, rest: string)
    ensures KindOf(kind + ":" + rest) == kind
  {
    var line := kind + ":" + rest;
    if kind != "" {
      assert line[0] == kind[0] && line[1..] == kind[1..] + ":" + rest;
      LabelReads(kind[1..], rest);
    }
  }

  lemma {:induction false} LabelDeterminesNode(t: Tree)
    ensures KindOf(Label(t)) == t.kind && DetailsOf(Label(t)) == t.details
  {
    assert Label(t) == t.kind + ":" + (" " + t.details);
    LabelReads(t.kind, " " + t.details);
    assert |Label(t)| == |t.kind| + 2 + |t.details|;
    assert Label(t)[|t.kind| + 2..] == t.details;
  }

  /** Reading trees back from their lines. */
  function Read(lines: seq<Line>, depth: nat): seq<Tree>
    decreases |lines|
  {
    if lines == [] then [] else
      var n := Deeper(lines[1..], depth);
      [Node(KindOf(lines[0].text), DetailsOf(lines[0].text), Read(lines[1..n + 1], depth + 1))] + Read(lines[n + 1..], depth)
  }

  ghost predicate AllDeeper(lines: seq<Line>, depth: nat) {
    forall i :: 0 <= i < |lines| ==> |lines[i].prefix| > 2 * depth
  }

  lemma {:induction false} DrawIsDeeper(t: Tree, path: seq<bool>)
    ensures |Draw(t, path)[0].prefix| == 2 * |path| && AllDeeper(Draw(t, path)[1..], |path|)
    decreases t, 0
  {
    PrefixLength(path);
    DrawAllIsDeeper(t.children, path);
  }

  lemma {:induction false} DrawAllIsDeeper(ts: seq<Tree>, path: seq<bool>)
    ensures AllDeeper(DrawAll(ts, path), |path|)
    decreases ts, 1
  {
    if ts != [] {
      var first := Draw(ts[0], path + [|ts| == 1]);
      DrawIsDeeper(ts[0], path + [|ts| == 1]);
      DrawAllIsDeeper(ts[1..], path);
      assert forall i :: 1 <= i < |first| ==> first[i] == first[1..][i - 1];
    }
  }

  lemma {:induction false} DeeperCounts(lines: seq<Line>, rest: seq<Line>, depth: nat)
    requires AllDeeper(lines, depth) && (rest == [] || |rest[0].prefix| <= 2 * depth)
    ensures Deeper(lines + rest, depth) == |lines|
    decreases |lines|
  {
    if lines == [] {
      assert lines + rest == rest;
    } else {
      assert (lines + rest)[1..] == lines[1..] + rest;
      DeeperCounts(lines[1..], rest, depth);
    }
  }

  /** A node's lines are read as that node, and what follows them as what follows it. */
  lemma {:induction false} ReadsOne(line: Line, below: seq<Line>, rest: seq<Line>, depth: nat)
    requires AllDeeper(below, depth) && (rest == [] || |rest[0].prefix| <= 2 * depth)
    ensures Read([line] + below + rest, depth) ==
            [Node(KindOf(line.text), DetailsOf(line.text), Read(below, depth + 1))] + Read(rest, depth)
  {
    hide KindOf, DetailsOf;
    var lines := [line] + below + rest;
    assert lines[1..] == below + rest;
    DeeperCounts(below, rest, depth);
    assert lines[1..|below| + 1] == below && lines[|below| + 1..] == rest;
  }

  lemma {:induction false} ReadsBackAll(ts: seq<Tree>, path: seq<bool>)
    ensures Read(DrawAll(ts, path), |path| + 1) == ts
    decreases ts
  {
    if ts != [] {
      var t, inner := ts[0], path + [|ts| == 1];
      var below, rest := DrawAll(t.children, inner), DrawAll(ts[1..], path);
      var lines := DrawAll(ts, path);
      PrefixLength(inner);
      DrawAllIsDeeper(t.children, inner);
      if |ts| > 1 {
        DrawIsDeeper(ts[1], path + [|ts[1..]| == 1]);
      }
      DrawHead(t, inner);
      assert lines == [Line(Prefix(inner), Label(t))] + below + rest;
      ReadsOne(Line(Prefix(inner), Label(t)), below, rest, |path| + 1);
      ReadsBackAll(t.children, inner);
      ReadsBackAll(ts[1..], path);
      LabelDeterminesNode(t);
      assert ts == [Node(t.kind, t.details, t.children)] + ts[1..];
    }
  }

  /** Two trees are drawn alike only if they are the same tree. */
  lemma {:induction false} DrawingDeterminesTree(t: Tree, t': Tree)
    ensures Read(Draw(t, []), 0) == [t]
    ensures Draw(t, []) == Draw(t', []) <==> t == t'
  {
    ReadsBack(t);
    ReadsBack(t');
  }

  lemma {:induction false} ReadsBack(t: Tree)
    ensures Read(Draw(t, []), 0) == [t]
  {
    var below := DrawAll(t.children, []);
    DrawAllIsDeeper(t.children, []);
    DeeperCounts(below, [], 0);
    assert below + [] == below;
    assert Draw(t, [])[1..] == below && Draw(t, [])[1..|below| + 1] == below && Draw(t, [])[|below| + 1..] == [];
    ReadsBackAll(t.children, []);
    LabelDeterminesNode(t);
  }
}
