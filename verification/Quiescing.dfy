/** Draining a node: who is quiesced, and what that means for attaching a new parent to a drained node. */
module Quiescing {
  import opened BlockGraphs

  function At(count: map<nat, nat>, x: nat): nat {
    if x in count then count[x] else 0
  }

  /** The edges from nodes whose targets lead to `n`. */
  ghost function Above(es: Edges, n: nat): set<nat> {
    set e | e in es && es[e].owner >= 0 && Reach(es, es[e].bs, n)
  }

  /** Fewer edges lie above a parent. */
  lemma FewerAbove(es: Edges, n: nat, f: nat)
    requires Acyclic(es) && f in es && es[f].bs == n && es[f].owner >= 0
    ensures |Above(es, es[f].owner)| < |Above(es, n)|
  {
    hide Reach;
    forall e | e in Above(es, es[f].owner)
      ensures e in Above(es, n)
    {
      ReachStep(es, es[e].bs, f);
    }
    ReachSelf(es, n);
    Smaller(Above(es, es[f].owner), Above(es, n), f);
  }

  lemma NotAboveItself(es: Edges, n: nat, f: nat)
    requires Acyclic(es) && f in es && es[f].bs == n && es[f].owner >= 0
    ensures !Reach(es, n, es[f].owner)
  {}

  lemma Smaller(s: set<nat>, s': set<nat>, f: nat)
    requires s <= s' && f in s' && f !in s
    ensures |s| < |s'|
  {
    assert s' == s + (s' - s);
    assert f in s' - s;
  }

  /** Node `x` is `n`, or leads to the owner of one of `some` edges. */
  ghost predicate Through(es: Edges, some: set<nat>, n: nat, x: nat) {
    x == n || exists e :: e in some && e in es && Reach(es, x, es[e].owner)
  }

  lemma ThroughNone(es: Edges, n: nat)
    ensures forall x :: Through(es, {}, n, x) <==> x == n
  {}

  lemma ThroughMore(es: Edges, some: set<nat>, n: nat, x: nat, e: nat)
    requires e in es
    ensures Through(es, some + {e}, n, x) <==> Through(es, some, n, x) || Reach(es, x, es[e].owner)
  {
    hide Reach;
    if f :| f in some && f in es && Reach(es, x, es[f].owner) {
      assert f in some + {e};
    }
  }

  lemma {:induction false} LastEdge(es: Edges, x: nat, path: seq<nat>, n: nat)
    requires Path(es, x, path, n)
    ensures x == n || exists e :: e in es && es[e].bs == n && es[e].owner >= 0 && Reach(es, x, es[e].owner)
    decreases |path|
  {
    if path != [] {
      var f := path[0];
      LastEdge(es, es[f].bs, path[1..], n);
      ReachSelf(es, x);
      if es[f].bs != n {
        var e :| e in es && es[e].bs == n && es[e].owner >= 0 && Reach(es, es[f].bs, es[e].owner);
        ReachFirst(es, f, es[e].owner);
      }
    }
  }

  /** Leading to a node means leading to one of its parents. */
  lemma ThroughParents(es: Edges, n: nat, x: nat)
    ensures Through(es, (set e | e in es && es[e].bs == n && es[e].owner >= 0), n, x) <==> Reach(es, x, n)
  {
    var parents := set e | e in es && es[e].bs == n && es[e].owner >= 0;
    if Through(es, parents, n, x) {
      ReachSelf(es, n);
      if x != n {
        var e :| e in parents && e in es && Reach(es, x, es[e].owner);
        ReachStep(es, x, e);
      }
    }
    if path :| Path(es, x, path, n) {
      LastEdge(es, x, path, n);
    }
  }

  /** The quiesce counters of the nodes of a graph. */
  class QuiesceCounters {
    const es: Edges
    var count: map<nat, nat>

    constructor (es: Edges)
      ensures this.es == es && count == map[]
    {
      this.es, count := es, map[];
    }

    /** bdrv_do_drained_begin_quiesce: exactly `n` and the nodes that lead to it are quiesced once more or
        more often. */
    method Begin(n: nat)
      requires Acyclic(es)
      modifies this`count
      ensures forall x: nat {:trigger At(count, x)} ::
                if Reach(es, x, n) then At(count, x) > At(old(count), x) else At(count, x) == At(old(count), x)
      ensures At(count, n) == At(old(count), n) + 1
      decreases |Above(es, n)|
    {
      hide Reach, Above, Acyclic, Through;
      ghost var c := count;
      ThroughNone(es, n);
      count := count[n := At(count, n) + 1];
      var todo := set e | e in es && es[e].bs == n && es[e].owner >= 0;
      ghost var parents, done: set<nat> := todo, {};
      while todo != {}
        invariant done !! todo && done + todo == parents && At(count, n) == At(c, n) + 1
        invariant forall x: nat {:trigger At(count, x)} ::
                    if Through(es, done, n, x) then At(count, x) > At(c, x) else At(count, x) == At(c, x)
        decreases |todo|
      {
        var e :| e in todo;
        todo := todo - {e};
        FewerAbove(es, n, e);
        NotAboveItself(es, n, e);
        ghost var c1 := count;
        Begin(es[e].owner);
        forall x: nat
          ensures At(c1, x) >= At(c, x)
          ensures Through(es, done + {e}, n, x) <==> Through(es, done, n, x) || Reach(es, x, es[e].owner)
        {
          ThroughMore(es, done, n, x, e);
        }
        done := done + {e};
      }
      assert done == parents;
      forall x: nat
        ensures Through(es, done, n, x) <==> Reach(es, x, n)
      {
        ThroughParents(es, n, x);
      }
    }

    /** Draining `top` and attaching it to `n` keeps the assertion unless `top` leads to `n`. */
    method DrainAndAttach(n: nat, top: nat) returns (holds: bool)
      requires Acyclic(es) && count == map[]
      modifies this`count
      ensures holds <==> !Reach(es, top, n)
    {
      hide Reach, Acyclic;
      ReachSelf(es, top);
      Begin(top);
      holds := AttachParent(n, top);
    }

    /** bdrv_replace_child_noperm for a new edge from `n` to `top`: the new parent is drained as often as
        `top` is.  Its assertion, that this does not drain `top` once more, fails if and only if `top` is
        drained and leads to `n`. */
    method AttachParent(n: nat, top: nat) returns (holds: bool)
      requires Acyclic(es)
      modifies this`count
      ensures holds <==> At(old(count), top) == 0 || !Reach(es, top, n)
    {
      hide Reach, Acyclic;
      var quiesced := At(count, top);
      var saldo := quiesced;
      while saldo > 0
        invariant 0 <= saldo <= quiesced
        invariant if Reach(es, top, n) && saldo < quiesced then At(count, top) > quiesced
                  else At(count, top) == quiesced
      {
        Begin(n);
        saldo := saldo - 1;
      }
      holds := At(count, top) <= quiesced;
    }
  }
}
