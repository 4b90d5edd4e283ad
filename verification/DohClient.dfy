/**
 The workers of one DoH client, interleaved: each adds to the shared counter
 and then, in a second step, loads it for the number of its query.
 */
module DohClient {
  import opened QueryNames

  /** The mutex-guarded counter: what a worker does to it between two others' turns is one call. */
  class Counter {
    var n: nat

    constructor ()
      ensures n == 0
    {
      n := 0;
    }

    method Add()
      modifies this
      ensures n == old(n) + 1
    {
      n := n + 1;
    }

    method Load() returns (v: nat)
      ensures v == n
    {
      v := n;
    }
  }

  datatype Asked = Asked(worker: nat, seqNo: nat)

  /** `added` holds the workers between their `add` and their `load`. */
  datatype World = World(n: nat, added: set<nat>, asked: seq<Asked>)

  datatype Action = Add(worker: nat) | LoadAndAsk(worker: nat)

  predicate Enabled(w: World, a: Action) {
    match a
    case Add(i) => i !in w.added
    case LoadAndAsk(i) => i in w.added
  }

  function Step(w: World, a: Action): World
    requires Enabled(w, a)
  {
    match a
    case Add(i) => w.(n := w.n + 1, added := w.added + {i})
    case LoadAndAsk(i) => w.(added := w.added - {i}, asked := w.asked + [Asked(i, w.n)])
  }

  predicate AllEnabled(w: World, actions: seq<Action>)
    decreases actions
  {
    actions == [] || (Enabled(w, actions[0]) && AllEnabled(Step(w, actions[0]), actions[1..]))
  }

  function Run(w: World, actions: seq<Action>): World
    requires AllEnabled(w, actions)
    decreases actions
  {
    if actions == [] then w else Run(Step(w, actions[0]), actions[1..])
  }

  const START: World := World(0, {}, [])

  /**
   The workers' calls on the one counter, in the order their locks fall: the
   numbers asked with, and the counter left behind, are the machine's.
   */
  method Interleave(seqNo: Counter, actions: seq<Action>) returns (asked: seq<Asked>)
    requires seqNo.n == 0 && AllEnabled(START, actions)
    modifies seqNo
    ensures seqNo.n == Run(START, actions).n && asked == Run(START, actions).asked
  {
    asked := [];
    ghost var w := START;
    for i := 0 to |actions|
      invariant AllEnabled(w, actions[i..]) && Run(w, actions[i..]) == Run(START, actions)
      invariant seqNo.n == w.n && asked == w.asked
    {
      assert actions[i..][0] == actions[i] && actions[i..][1..] == actions[i + 1..];
      w := Step(w, actions[i]);
      match actions[i]
      case Add(_) =>
        seqNo.Add();
      case LoadAndAsk(worker) =>
        var v := seqNo.Load();
        asked := asked + [Asked(worker, v)];
    }
  }

  /** No query has a number yet to come, and a worker's own are behind the counter once it has added. */
  ghost predicate Sound(w: World) {
    && (forall k :: 0 <= k < |w.asked| ==> w.asked[k].seqNo <= w.n)
    && (forall k :: 0 <= k < |w.asked| && w.asked[k].worker in w.added ==> w.asked[k].seqNo < w.n)
    && (forall j, k :: 0 <= j < k < |w.asked| ==> w.asked[j] != w.asked[k])
  }

  lemma StepKeepsSound(w: World, a: Action)
    requires Sound(w) && Enabled(w, a)
    ensures Sound(Step(w, a))
  {
  }

  lemma {:induction false} RunKeepsSound(w: World, actions: seq<Action>)
    requires Sound(w) && AllEnabled(w, actions)
    ensures Sound(Run(w, actions))
    decreases actions
  {
    hide Step, Enabled, Sound;
    if actions != [] {
      StepKeepsSound(w, actions[0]);
      RunKeepsSound(Step(w, actions[0]), actions[1..]);
    }
  }

  function NameOf(a: Asked, tag: string): string {
    ClientName(false, a.worker, a.seqNo, tag)
  }

  /** Under every interleaving of a client's workers, no two queries ask the same unique name. */
  lemma NamesNeverRepeat(actions: seq<Action>, tag: string, j: nat, k: nat)
    requires AllEnabled(START, actions) && j < k < |Run(START, actions).asked|
    ensures NameOf(Run(START, actions).asked[j], tag) != NameOf(Run(START, actions).asked[k], tag)
  {
    hide ClientName, Run;
    RunKeepsSound(START, actions);
    var a, b := Run(START, actions).asked[j], Run(START, actions).asked[k];
    if NameOf(a, tag) == NameOf(b, tag) {
      ClientNameIsInjective(a.worker, a.seqNo, b.worker, b.seqNo, tag);
    }
  }

  // ---------------------------------------------------------- when numbers repeat

  function Adds(actions: seq<Action>): nat {
    if actions == [] then 0 else (if actions[0].Add? then 1 else 0) + Adds(actions[1..])
  }

  function Loads(actions: seq<Action>): nat {
    if actions == [] then 0 else (if actions[0].LoadAndAsk? then 1 else 0) + Loads(actions[1..])
  }

  lemma {:induction false} AskedStays(w: World, actions: seq<Action>, k: nat)
    requires AllEnabled(w, actions) && k < |w.asked|
    ensures k < |Run(w, actions).asked| && Run(w, actions).asked[k] == w.asked[k]
    decreases actions
  {
    if actions != [] { AskedStays(Step(w, actions[0]), actions[1..], k); }
  }

  /** The query of a load has for its number all the adds before it, whosever they are. */
  lemma {:induction false} NumberIsAddsBefore(w: World, actions: seq<Action>, p: nat)
    requires AllEnabled(w, actions) && p < |actions| && actions[p].LoadAndAsk?
    ensures var k := |w.asked| + Loads(actions[..p]);
            && k < |Run(w, actions).asked|
            && Run(w, actions).asked[k] == Asked(actions[p].worker, w.n + Adds(actions[..p]))
    decreases actions
  {
    var v, rest := Step(w, actions[0]), actions[1..];
    if p == 0 {
      AskedStays(v, rest, |w.asked|);
    } else {
      assert actions[..p][0] == actions[0] && actions[..p][1..] == rest[..p - 1];
      NumberIsAddsBefore(v, rest, p - 1);
    }
  }

  lemma {:induction false} AddsSplit(a: seq<Action>, b: seq<Action>)
    ensures Adds(a + b) == Adds(a) + Adds(b)
  {
    if a == [] {
      assert a + b == b;
    } else {
      assert (a + b)[0] == a[0] && (a + b)[1..] == a[1..] + b;
      AddsSplit(a[1..], b);
    }
  }

  lemma {:induction false} NoAdds(actions: seq<Action>)
    ensures Adds(actions) == 0 <==> forall i :: 0 <= i < |actions| ==> !actions[i].Add?
  {
    if actions != [] {
      assert forall i :: 0 < i < |actions| ==> actions[i] == actions[1..][i - 1];
      NoAdds(actions[1..]);
    }
  }

  /** Under every interleaving: two queries have the same number exactly when no worker adds between their loads. */
  lemma NumbersRepeatIff(actions: seq<Action>, p: nat, q: nat)
    requires AllEnabled(START, actions) && p < q < |actions|
    requires actions[p].LoadAndAsk? && actions[q].LoadAndAsk?
    ensures var asked := Run(START, actions).asked;
            var j, k := Loads(actions[..p]), Loads(actions[..q]);
            && j < |asked| && asked[j].worker == actions[p].worker
            && k < |asked| && asked[k].worker == actions[q].worker
            && (asked[j].seqNo == asked[k].seqNo <==> forall i :: p <= i < q ==> !actions[i].Add?)
  {
    hide Run, AllEnabled, Adds, Loads;
    NumberIsAddsBefore(START, actions, p);
    NumberIsAddsBefore(START, actions, q);
    assert actions[..q] == actions[..p] + actions[p..q];
    AddsSplit(actions[..p], actions[p..q]);
    NoAdds(actions[p..q]);
    assert forall i :: p <= i < q ==> actions[i] == actions[p..q][i - p];
  }

  /** The numbers alone do repeat: two workers that add before either loads read the same one. */
  lemma NumbersMayRepeat()
    ensures var actions := [Add(0), Add(1), LoadAndAsk(0), LoadAndAsk(1)];
            AllEnabled(START, actions) && Run(START, actions).asked == [Asked(0, 2), Asked(1, 2)]
  {
  }
}
