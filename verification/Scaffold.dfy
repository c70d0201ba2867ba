/** The order in which the API scaffold generator prints type declarations: a worklist over the shapes of a
    service, whose dependencies may be cyclic. */
module Scaffold {
  import opened Options

  /** The dependency names of every shape node, by node name. */
  type Graph = map<string, seq<string>>

  datatype Declaration = Declaration(name: string, quoted: bool)

  predicate Edge(deps: Graph, a: string, b: string) { a in deps && b in deps[a] }

  /** A chain of at least one dependency from `a` to `b`. */
  ghost predicate Reaches(deps: Graph, a: string, b: string) {
    exists path :: IsPath(deps, path) && path[0] == a && path[|path| - 1] == b
  }

  predicate IsPath(deps: Graph, path: seq<string>) {
    |path| >= 2 && forall i :: 0 <= i < |path| - 1 ==> Edge(deps, path[i], path[i + 1])
  }

  /** Every dependency is a node; otherwise looking it up raises `KeyError`. */
  predicate Closed(deps: Graph) {
    forall n :: n in deps ==> forall i :: 0 <= i < |deps[n]| ==> deps[n][i] in deps
  }

  predicate Listing(deps: Graph, names: seq<string>) {
    && (forall i :: 0 <= i < |names| ==> names[i] in deps)
    && (forall n :: n in deps ==> n in names)
  }

  predicate Declared(out: seq<Declaration>, name: string) {
    exists i :: 0 <= i < |out| && out[i].name == name
  }

  ghost predicate PrintedOnce(deps: Graph, out: seq<Declaration>) {
    && (forall i :: 0 <= i < |out| ==> out[i].name in deps)
    && (forall i, j :: 0 <= i < j < |out| ==> out[i].name != out[j].name)
  }

  /** An unquoted declaration comes after all it mentions; a quoted one is part of a cycle. */
  ghost predicate WellOrdered(deps: Graph, out: seq<Declaration>) {
    forall i :: 0 <= i < |out| ==> WellPlaced(deps, out, i)
  }

  ghost predicate WellPlaced(deps: Graph, out: seq<Declaration>, i: nat)
    requires i < |out|
  {
    if out[i].quoted then Reaches(deps, out[i].name, out[i].name)
    else forall d :: Edge(deps, out[i].name, d) ==> Declared(out[..i], d)
  }

  // ---------------------------------------------------------------- the worklist

  /** `parent[p]` is the stack position of the node that pushed entry `p` (or -1), `frames` the positions whose
      nodes have pushed their dependencies and wait below them. */
  datatype Work = Work(stack: seq<string>, parent: seq<int>, frames: set<int>, printed: set<string>,
                       visited: set<string>)

  predicate Linked(deps: Graph, w: Work, p: nat)
    requires p < |w.stack| && |w.parent| == |w.stack|
  {
    var q := w.parent[p];
    -1 <= q < p && (q >= 0 ==> q in w.frames && Edge(deps, w.stack[q], w.stack[p]))
  }

  predicate StackShape(deps: Graph, w: Work) {
    && |w.parent| == |w.stack|
    && (forall f :: f in w.frames ==> 0 <= f < |w.stack| && w.stack[f] in w.visited)
    && (forall p :: 0 <= p < |w.stack| ==> Linked(deps, w, p))
    && (forall f, p :: f in w.frames && f < p < |w.stack| ==> w.parent[p] >= f)
  }

  predicate Above(stack: seq<string>, from: nat, name: string) {
    exists p :: from <= p < |stack| && stack[p] == name
  }

  predicate Served(w: Work, from: nat, name: string) {
    name in w.printed || Above(w.stack, from, name)
  }

  /** A waiting node finds each of its dependencies printed or still above it. */
  ghost predicate FramesServed(deps: Graph, w: Work) {
    forall f: nat, d :: f in w.frames && f < |w.stack| && Edge(deps, w.stack[f], d) ==> Served(w, f + 1, d)
  }

  predicate Waiting(w: Work, name: string) {
    exists f :: f in w.frames && 0 <= f < |w.stack| && w.stack[f] == name
  }

  ghost predicate Covered(deps: Graph, w: Work) {
    && (forall n :: n in deps ==> Served(w, 0, n))
    && (forall n, d :: n in w.visited && Edge(deps, n, d) ==> Served(w, 0, d))
    && (forall n :: n in w.visited ==> n in deps && (n in w.printed || Waiting(w, n)))
  }

  ghost predicate Matches(deps: Graph, w: Work, out: seq<Declaration>) {
    && PrintedOnce(deps, out) && WellOrdered(deps, out)
    && (forall n :: n in w.printed <==> Declared(out, n))
    && (forall i :: 0 <= i < |out| && out[i].name !in w.visited ==> !out[i].quoted)
  }

  ghost predicate Inv(deps: Graph, w: Work, out: seq<Declaration>) {
    StackShape(deps, w) && FramesServed(deps, w) && Covered(deps, w) && Matches(deps, w, out)
  }

  function Popped(w: Work): Work
    requires w.stack != []
  {
    var t := |w.stack| - 1;
    w.(stack := w.stack[..t], parent := if |w.parent| > t then w.parent[..t] else w.parent, frames := w.frames - {t})
  }

  function Expanded(w: Work, pending: seq<string>): Work
    requires w.stack != []
  {
    var t := |w.stack| - 1;
    w.(stack := w.stack + pending, parent := w.parent + seq(|pending|, i => t), frames := w.frames + {t},
       visited := w.visited + {w.stack[t]})
  }

  function Unprinted(deps: seq<string>, printed: set<string>): (r: seq<string>)
    ensures forall d :: d in r <==> d in deps && d !in printed
  {
    if deps == [] then []
    else if deps[0] in printed then Unprinted(deps[1..], printed)
    else [deps[0]] + Unprinted(deps[1..], printed)
  }

  /** Everything above a waiting node was reached through it. */
  lemma {:induction false} FrameReaches(deps: Graph, w: Work, f: int, p: int)
    requires StackShape(deps, w) && f in w.frames && f < p < |w.stack|
    ensures Reaches(deps, w.stack[f], w.stack[p])
    decreases p
  {
    var q := w.parent[p];
    assert Linked(deps, w, p);
    if q == f {
      assert IsPath(deps, [w.stack[f], w.stack[p]]);
    } else {
      FrameReaches(deps, w, f, q);
      var path :| IsPath(deps, path) && path[0] == w.stack[f] && path[|path| - 1] == w.stack[q];
      assert IsPath(deps, path + [w.stack[p]]);
    }
  }

  lemma PopShape(deps: Graph, w: Work)
    requires StackShape(deps, w) && w.stack != []
    ensures StackShape(deps, Popped(w))
  {
    var w' := Popped(w);
    forall p | 0 <= p < |w'.stack| ensures Linked(deps, w', p) { assert Linked(deps, w, p); }
  }

  lemma PopServed(w: Work, from: nat, name: string)
    requires w.stack != [] && w.stack[|w.stack| - 1] in w.printed && Served(w, from, name)
    ensures Served(Popped(w), from, name)
  {
  }

  /** Leaving the top entry behind is fine once its name is printed. */
  lemma PopKeeps(deps: Graph, w: Work, out: seq<Declaration>)
    requires Inv(deps, w, out) && w.stack != [] && w.stack[|w.stack| - 1] in w.printed
    ensures Inv(deps, Popped(w), out)
  {
    var w' := Popped(w);
    PopShape(deps, w);
    forall f: nat, d | f in w'.frames && f < |w'.stack| && Edge(deps, w'.stack[f], d) ensures Served(w', f + 1, d) {
      PopServed(w, f + 1, d);
    }
    forall n | Served(w, 0, n) ensures Served(w', 0, n) { PopServed(w, 0, n); }
    forall n | n in w'.visited ensures n in w'.printed || Waiting(w', n) {
      if n !in w.printed {
        var f :| f in w.frames && 0 <= f < |w.stack| && w.stack[f] == n;
        assert f in w'.frames && w'.stack[f] == n;
      }
    }
  }

  lemma PrintMatches(deps: Graph, w: Work, out: seq<Declaration>, d: Declaration)
    requires Matches(deps, w, out) && d.name in deps && d.name !in w.printed
    requires d.quoted ==> Reaches(deps, d.name, d.name) && d.name in w.visited
    requires !d.quoted ==> forall e :: Edge(deps, d.name, e) ==> e in w.printed
    ensures Matches(deps, w.(printed := w.printed + {d.name}), out + [d])
  {
    var out' := out + [d];
    assert out'[..|out|] == out;
    forall i | 0 <= i < |out'| ensures WellPlaced(deps, out', i) {
      if i < |out| { assert WellPlaced(deps, out, i) && out'[..i] == out[..i]; }
    }
    forall n ensures Declared(out', n) <==> Declared(out, n) || n == d.name {
      if Declared(out, n) { var i :| 0 <= i < |out| && out[i].name == n; assert out'[i].name == n; }
      if n == d.name { assert out'[|out|].name == n; }
    }
    assert !Declared(out, d.name);
  }

  /** Printing the top entry, unquoted when nothing it mentions is missing, quoted when it closes a cycle. */
  lemma PrintKeeps(deps: Graph, w: Work, out: seq<Declaration>, quoted: bool)
    requires Inv(deps, w, out) && w.stack != []
    requires var name := w.stack[|w.stack| - 1];
             name in deps && name !in w.printed &&
             if quoted then name in w.visited && exists e :: Edge(deps, name, e) && e !in w.printed
             else forall e :: Edge(deps, name, e) ==> e in w.printed
    ensures var name := w.stack[|w.stack| - 1];
            Inv(deps, Popped(w.(printed := w.printed + {name})), out + [Declaration(name, quoted)])
  {
    var t := |w.stack| - 1;
    var name := w.stack[t];
    var w' := w.(printed := w.printed + {name});
    if quoted {
      TopIsNotFrame(deps, w, out);
      assert Waiting(w, name);
      var f :| f in w.frames && 0 <= f < |w.stack| && w.stack[f] == name;
      FrameReaches(deps, w, f, t);
    }
    PrintMatches(deps, w, out, Declaration(name, quoted));
    forall from: nat, n | Served(w, from, n) ensures Served(w', from, n) { }
    forall n | n in w'.visited ensures n in w'.printed || Waiting(w', n) {
      if n !in w'.printed { assert Waiting(w, n); }
    }
    forall p | 0 <= p < |w'.stack| ensures Linked(deps, w', p) { assert Linked(deps, w, p); }
    PopKeeps(deps, w', out + [Declaration(name, quoted)]);
  }

  /** When a waiting node comes up again, all it mentions has been printed. */
  lemma TopIsNotFrame(deps: Graph, w: Work, out: seq<Declaration>)
    requires Inv(deps, w, out) && w.stack != []
    requires exists e :: Edge(deps, w.stack[|w.stack| - 1], e) && e !in w.printed
    ensures |w.stack| - 1 !in w.frames
  {
  }

  /** A node visited for the first time waits below the dependencies it pushes. */
  lemma ExpandKeeps(deps: Graph, w: Work, out: seq<Declaration>)
    requires Inv(deps, w, out) && w.stack != []
    requires var name := w.stack[|w.stack| - 1]; name in deps && name !in w.printed && name !in w.visited
    ensures Inv(deps, Expanded(w, Unprinted(deps[w.stack[|w.stack| - 1]], w.printed)), out)
  {
    var t := |w.stack| - 1;
    var name := w.stack[t];
    var pending := Unprinted(deps[name], w.printed);
    var w' := Expanded(w, pending);
    forall p | 0 <= p < |w'.stack| ensures Linked(deps, w', p) {
      if p <= t {
        assert Linked(deps, w, p);
      } else {
        assert w'.stack[p] == pending[p - t - 1] && w'.stack[p] in pending;
      }
    }
    forall from: nat, n | Served(w, from, n) ensures Served(w', from, n) {
      if n !in w.printed { var p :| from <= p < |w.stack| && w.stack[p] == n; assert w'.stack[p] == n; }
    }
    forall d | Edge(deps, name, d) ensures Served(w', t + 1, d) && Served(w', 0, d) {
      if d !in w.printed {
        var i :| 0 <= i < |pending| && pending[i] == d;
        assert w'.stack[t + 1 + i] == d;
      }
    }
    forall n | n in w'.visited ensures n in deps && (n in w'.printed || Waiting(w', n)) {
      if n == name { assert t in w'.frames && w'.stack[t] == n; }
      else if n !in w.printed {
        var f :| f in w.frames && 0 <= f < |w.stack| && w.stack[f] == n;
        assert f in w'.frames && w'.stack[f] == n;
      }
    }
  }

  // ---------------------------------------------------------------- the generator loop

  /** The worklist of `generate_service_types`, started from any listing of the nodes. It ends for every finite graph,
      with `None` (a `KeyError`) exactly if some dependency is not a node; otherwise each shape is printed once, an
      unquoted declaration after everything it mentions and a quoted one only on a cycle. */
  method GenerateDeclarations(deps: Graph, names: seq<string>) returns (r: Option<seq<Declaration>>)
    requires Listing(deps, names)
    ensures r.Some? <==> Closed(deps)
    ensures r.Some? ==> PrintedOnce(deps, r.value) && WellOrdered(deps, r.value)
    ensures r.Some? ==> forall n :: n in deps ==> Declared(r.value, n)
  {
    var stack := names;
    var printed: set<string> := {};
    var visited: set<string> := {};
    var out: seq<Declaration> := [];
    ghost var w := Work(stack, seq(|stack|, i => -1), {}, {}, {});
    StartHolds(deps, names);
    while stack != []
      invariant w.stack == stack && w.printed == printed && w.visited == visited
      invariant Inv(deps, w, out) && Known(deps, stack)
      decreases deps.Keys - visited, |stack|
    {
      var name := stack[|stack| - 1];
      if name in printed {
        PopKeeps(deps, w, out);
        stack := stack[..|stack| - 1];
        w := Popped(w);
        continue;
      }
      if name !in deps { return None; }
      var pending := Unprinted(deps[name], printed);
      if pending == [] {
        PrintKeeps(deps, w, out, false);
        w := Popped(w.(printed := w.printed + {name}));
        stack, printed, out := stack[..|stack| - 1], printed + {name}, out + [Declaration(name, false)];
      } else if name in visited {
        assert pending[0] in pending;
        PrintKeeps(deps, w, out, true);
        w := Popped(w.(printed := w.printed + {name}));
        stack, printed, out := stack[..|stack| - 1], printed + {name}, out + [Declaration(name, true)];
      } else {
        ExpandKeeps(deps, w, out);
        PendingKnown(deps, stack, name, pending);
        w := Expanded(w, pending);
        stack, visited := stack + pending, visited + {name};
      }
    }
    AllDone(deps, w, out);
    r := Some(out);
  }

  /** What is on the stack is a node, or the graph is not closed. */
  ghost predicate Known(deps: Graph, stack: seq<string>) {
    Closed(deps) ==> forall i :: 0 <= i < |stack| ==> stack[i] in deps
  }

  lemma PendingKnown(deps: Graph, stack: seq<string>, name: string, pending: seq<string>)
    requires Known(deps, stack) && name in deps && forall d :: d in pending ==> d in deps[name]
    ensures Known(deps, stack + pending)
  {
    if Closed(deps) {
      forall i | 0 <= i < |pending| ensures pending[i] in deps { assert pending[i] in pending; }
    }
  }

  lemma StartHolds(deps: Graph, names: seq<string>)
    requires Listing(deps, names)
    ensures Inv(deps, Work(names, seq(|names|, i => -1), {}, {}, {}), []) && Known(deps, names)
  {
  }

  /** With the stack empty every node is printed and every dependency is a node. */
  lemma AllDone(deps: Graph, w: Work, out: seq<Declaration>)
    requires Inv(deps, w, out) && w.stack == []
    ensures Closed(deps) && forall n :: n in deps ==> Declared(out, n)
  {
    forall n | n in deps ensures n in w.printed { assert Served(w, 0, n); }
    forall n, i | n in deps && 0 <= i < |deps[n]| ensures deps[n][i] in deps {
      var d := deps[n][i];
      assert Edge(deps, n, d);
      var k :| 0 <= k < |out| && out[k].name == n;
      if n in w.visited {
        assert Served(w, 0, d);
      } else {
        assert WellPlaced(deps, out, k);
        assert Declared(out[..k], d);
        var j :| 0 <= j < k && out[..k][j].name == d;
        assert out[j].name == d;
      }
    }
  }

  // ---------------------------------------------------------------- what the order means

  function Position(out: seq<Declaration>, name: string): (i: nat)
    requires Declared(out, name)
    ensures i < |out| && out[i].name == name
  {
    if out[0].name == name then 0
    else
      assert Declared(out[1..], name) by {
        var i :| 0 <= i < |out| && out[i].name == name;
        assert out[1..][i - 1].name == name;
      }
      1 + Position(out[1..], name)
  }

  predicate Quoted(out: seq<Declaration>, name: string)
    requires Declared(out, name)
  {
    out[Position(out, name)].quoted
  }

  /** Along unquoted declarations, dependencies lie ever further back in the output. */
  lemma {:induction false} PositionsDescend(deps: Graph, out: seq<Declaration>, path: seq<string>, k: nat)
    requires PrintedOnce(deps, out) && WellOrdered(deps, out) && forall n :: n in deps ==> Declared(out, n)
    requires IsPath(deps, path) && k < |path| && forall i :: 0 <= i < |path| ==> path[i] in deps
    requires forall i :: 0 <= i < k ==> !Quoted(out, path[i])
    ensures Position(out, path[k]) + k <= Position(out, path[0])
  {
    if k > 0 {
      PositionsDescend(deps, out, path, k - 1);
      var p := Position(out, path[k - 1]);
      assert WellPlaced(deps, out, p) && !Quoted(out, path[k - 1]);
      assert Edge(deps, path[k - 1], path[k - 1 + 1]);
      assert Declared(out[..p], path[k]);
      var j :| 0 <= j < p && out[..p][j].name == path[k];
      assert out[j].name == out[Position(out, path[k])].name;
    }
  }

  /** Cycle breaking is complete: in the output for any graph, every dependency cycle has a quoted member. */
  lemma EveryCycleIsQuoted(deps: Graph, out: seq<Declaration>, path: seq<string>)
    requires PrintedOnce(deps, out) && WellOrdered(deps, out) && forall n :: n in deps ==> Declared(out, n)
    requires IsPath(deps, path) && path[0] == path[|path| - 1] && forall i :: 0 <= i < |path| ==> path[i] in deps
    ensures exists i :: 0 <= i < |path| - 1 && Quoted(out, path[i])
  {
    if forall i :: 0 <= i < |path| - 1 ==> !Quoted(out, path[i]) {
      PositionsDescend(deps, out, path, |path| - 1);
      assert false;
    }
  }

  /** In a graph without cycles nothing is quoted, and the output is a topological order. */
  lemma AcyclicMeansUnquoted(deps: Graph, out: seq<Declaration>)
    requires WellOrdered(deps, out) && forall n :: n in deps ==> !Reaches(deps, n, n)
    requires PrintedOnce(deps, out)
    ensures forall i :: 0 <= i < |out| ==> !out[i].quoted
    ensures forall i, d :: 0 <= i < |out| && Edge(deps, out[i].name, d) ==> Declared(out[..i], d)
  {
    forall i | 0 <= i < |out|
      ensures !out[i].quoted && forall d :: Edge(deps, out[i].name, d) ==> Declared(out[..i], d)
    {
      assert WellPlaced(deps, out, i);
    }
  }
}
