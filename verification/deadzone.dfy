/** The deadzone the storm switches on: existing level nodes are widened to a
    target radius (remembering their radii) or, on a level without nodes, a
    node of the plugin's own is added; stopping puts everything back. */
module Deadzone {
  import opened Common
  import opened Settings

  type NodeId = nat

  /** The level's deadzone node list (in the order the level keeps it, an
      object may be listed twice) and every node's current radius. */
  datatype Level = Level(nodes: seq<NodeId>, radius: map<NodeId, real>)

  /** Every listed node has a radius and every radius belongs to a listed node. */
  predicate WellFormed(l: Level)
  {
    (forall n :: n in l.nodes ==> n in l.radius) && (forall n :: n in l.radius ==> n in l.nodes)
  }

  function RadiusOf(l: Level, n: NodeId): real
  {
    if n in l.radius then l.radius[n] else 0.0
  }

  predicate NoDup(s: seq<NodeId>)
  {
    forall i, j :: 0 <= i < j < |s| ==> s[i] != s[j]
  }

  /** The nodes the plugin widened, in order, and each one's recorded radius. */
  datatype Widening = Widening(nodes: seq<NodeId>, originals: map<NodeId, real>)

  /** What the plugin must undo when the deadzone goes away. */
  datatype Handle = Handle(widening: Option<Widening>, created: Option<NodeId>)

  const NoHandle := Handle(None, None)

  /** The identity of the node the plugin adds; it is added only to a level
      without nodes, where nothing else carries it. */
  const NewNodeId: NodeId := 0

  /** The radius the deadzone must reach: the configured radius, or more when
      the map needs it (`coverRadius` stands for the map's half-diagonal plus
      100 m). */
  function TargetRadius(cfg: Config, coverRadius: real): (t: real)
    ensures cfg.deadzoneRadius <= t && coverRadius <= t
    ensures t == cfg.deadzoneRadius || t == coverRadius
  {
    Max(cfg.deadzoneRadius, coverRadius)
  }

  /** The widening loop of `EnableDeadzoneNodes` over `ns`: record each node's
      radius, then raise it to at least `target`. */
  function WidenFrom(l: Level, w: Widening, ns: seq<NodeId>, target: real): (r: (Level, Widening))
    ensures r.0.nodes == l.nodes
    ensures r.1.nodes == w.nodes + ns
    decreases |ns|
  {
    if |ns| == 0 then (l, w)
    else
      var n := ns[0];
      var before := RadiusOf(l, n);
      var l1 := l.(radius := l.radius[n := Max(before, target)]);
      var w1 := Widening(w.nodes + [n], w.originals[n := before]);
      WidenFrom(l1, w1, ns[1..], target)
  }

  /** Widening gives every node of `ns` the radius `max(radius, target)`,
      whether or not it is listed twice, and touches no other node. */
  lemma {:induction false} WidenRadii(l: Level, w: Widening, ns: seq<NodeId>, target: real)
    ensures WidenFrom(l, w, ns, target).0.radius.Keys == l.radius.Keys + (set n | n in ns)
    ensures forall n :: n in l.radius && n !in ns ==> WidenFrom(l, w, ns, target).0.radius[n] == l.radius[n]
    ensures forall n :: n in ns ==> WidenFrom(l, w, ns, target).0.radius[n] == Max(RadiusOf(l, n), target)
    decreases |ns|
  {
    if |ns| > 0 {
      var n := ns[0];
      var before := RadiusOf(l, n);
      var l1 := l.(radius := l.radius[n := Max(before, target)]);
      var w1 := Widening(w.nodes + [n], w.originals[n := before]);
      WidenRadii(l1, w1, ns[1..], target);
      assert forall m :: m in ns <==> m == n || m in ns[1..];
      if n in ns[1..] {
        assert Max(RadiusOf(l1, n), target) == Max(before, target);
      }
    }
  }

  /** Widening records, for a duplicate-free `ns`, each node's radius as it
      was, and keeps the records of other nodes. */
  lemma {:induction false} WidenOriginals(l: Level, w: Widening, ns: seq<NodeId>, target: real)
    ensures WidenFrom(l, w, ns, target).1.originals.Keys == w.originals.Keys + (set n | n in ns)
    ensures forall n :: n in w.originals && n !in ns ==> WidenFrom(l, w, ns, target).1.originals[n] == w.originals[n]
    ensures NoDup(ns) ==> forall n :: n in ns ==> WidenFrom(l, w, ns, target).1.originals[n] == RadiusOf(l, n)
    decreases |ns|
  {
    if |ns| > 0 {
      var n := ns[0];
      var before := RadiusOf(l, n);
      var l1 := l.(radius := l.radius[n := Max(before, target)]);
      var w1 := Widening(w.nodes + [n], w.originals[n := before]);
      WidenOriginals(l1, w1, ns[1..], target);
      assert forall m :: m in ns <==> m == n || m in ns[1..];
      if NoDup(ns) {
        assert n !in ns[1..] by {
          forall k | 0 <= k < |ns[1..]| ensures ns[1..][k] != n {
            assert ns[1..][k] == ns[k + 1];
          }
        }
        assert NoDup(ns[1..]) by {
          forall i, j | 0 <= i < j < |ns[1..]| ensures ns[1..][i] != ns[1..][j] {
            assert ns[1..][i] == ns[i + 1] && ns[1..][j] == ns[j + 1];
          }
        }
        forall m | m in ns[1..] ensures RadiusOf(l1, m) == RadiusOf(l, m) {
        }
      }
    }
  }

  /** `EnableDeadzoneNodes` over the level's own node list: the widened level,
      the record, and whether any node was enabled. */
  function EnableNodes(l: Level, target: real): (r: (Level, Widening, bool))
    ensures r.2 <==> |r.1.nodes| > 0
    ensures r.2 <==> |l.nodes| > 0
    ensures r.0.nodes == l.nodes && r.1.nodes == l.nodes
    ensures forall n :: n in l.nodes ==> n in r.0.radius && n in r.1.originals
  {
    WidenRadii(l, Widening([], map[]), l.nodes, target);
    WidenOriginals(l, Widening([], map[]), l.nodes, target);
    var r := WidenFrom(l, Widening([], map[]), l.nodes, target);
    (r.0, r.1, |r.1.nodes| > 0)
  }

  /** Widening raises every listed node to at least the target, never lowers
      a radius, and keeps the level well formed. */
  lemma WidenRaises(l: Level, target: real)
    requires WellFormed(l)
    ensures WellFormed(EnableNodes(l, target).0)
    ensures EnableNodes(l, target).0.radius.Keys == l.radius.Keys
    ensures EnableNodes(l, target).1.nodes == l.nodes
    ensures forall n :: n in l.nodes ==> EnableNodes(l, target).0.radius[n] == Max(l.radius[n], target)
    ensures forall n :: n in l.nodes ==> target <= EnableNodes(l, target).0.radius[n]
  {
    var w0 := Widening([], map[]);
    var r := WidenFrom(l, w0, l.nodes, target);
    assert EnableNodes(l, target).0 == r.0;
    WidenRadii(l, w0, l.nodes, target);
    assert r.0.radius.Keys == l.radius.Keys by {
      assert (set n | n in l.nodes) <= l.radius.Keys;
    }
    forall n | n in l.nodes
      ensures r.0.radius[n] == Max(l.radius[n], target)
    {
      assert RadiusOf(l, n) == l.radius[n];
    }
  }

  /** For a duplicate-free node list, widening records each node's radius as
      it was. */
  lemma WidenRecordsOriginals(l: Level, target: real)
    requires WellFormed(l) && NoDup(l.nodes)
    ensures forall n :: n in l.nodes ==> EnableNodes(l, target).1.originals[n] == l.radius[n]
  {
    var w0 := Widening([], map[]);
    var r := WidenFrom(l, w0, l.nodes, target);
    assert EnableNodes(l, target).1 == r.1;
    WidenOriginals(l, w0, l.nodes, target);
    forall n | n in l.nodes
      ensures r.1.originals[n] == l.radius[n]
    {
      assert RadiusOf(l, n) == l.radius[n];
    }
  }

  /** The restore loop of `RemoveDeadzone`: every listed node that has a
      recorded radius gets it back. */
  function RestoreFrom(l: Level, ns: seq<NodeId>, originals: map<NodeId, real>): (r: Level)
    ensures r.nodes == l.nodes
    ensures r.radius.Keys == l.radius.Keys + (set n | n in ns && n in originals)
    ensures forall n :: n in ns && n in originals ==> r.radius[n] == originals[n]
    ensures forall n :: n in l.radius && !(n in ns && n in originals) ==> r.radius[n] == l.radius[n]
    decreases |ns|
  {
    if |ns| == 0 then l
    else
      var n := ns[0];
      var l1 := if n in originals then l.(radius := l.radius[n := originals[n]]) else l;
      var r := RestoreFrom(l1, ns[1..], originals);
      assert forall m :: m in ns <==> m == n || m in ns[1..];
      r
  }

  /** Position of the first occurrence of `x`. */
  function FirstIndex(s: seq<NodeId>, x: NodeId): (k: nat)
    requires x in s
    ensures k < |s| && s[k] == x
    ensures x !in s[..k]
    decreases |s|
  {
    if s[0] == x then 0
    else
      var k := FirstIndex(s[1..], x);
      assert s[..k + 1] == [s[0]] + s[1..][..k];
      1 + k
  }

  /** `List.Remove`: drops one occurrence; a list without `x` is left alone. */
  function RemoveFirst(s: seq<NodeId>, x: NodeId): (r: seq<NodeId>)
    ensures x !in s ==> r == s
    decreases |s|
  {
    if |s| == 0 then s
    else if s[0] == x then
      assert s == [x] + s[1..];
      s[1..]
    else
      var r := [s[0]] + RemoveFirst(s[1..], x);
      assert s == [s[0]] + s[1..];
      r
  }

  /** Removing `x` from a list whose first `x` follows `a` leaves `a` and
      what came after that `x`. */
  lemma {:induction false} RemoveAfter(a: seq<NodeId>, x: NodeId, b: seq<NodeId>)
    requires x !in a
    ensures RemoveFirst(a + [x] + b, x) == a + b
    decreases |a|
  {
    var s := a + [x] + b;
    if |a| == 0 {
      assert s == [x] + b;
    } else {
      assert s == [a[0]] + (a[1..] + [x] + b);
      RemoveAfter(a[1..], x, b);
      assert a + b == [a[0]] + (a[1..] + b);
    }
  }

  /** The occurrence `RemoveFirst` drops is the first one, and the elements
      before and after it keep their order. */
  lemma RemoveFirstIsFirst(s: seq<NodeId>, x: NodeId)
    requires x in s
    ensures RemoveFirst(s, x) == s[..FirstIndex(s, x)] + s[FirstIndex(s, x) + 1..]
  {
    var k := FirstIndex(s, x);
    assert s == s[..k] + [x] + s[k + 1..];
    RemoveAfter(s[..k], x, s[k + 1..]);
  }

  /** `RemoveFirst` takes out exactly one copy of `x` when there is one. */
  lemma RemoveFirstCount(s: seq<NodeId>, x: NodeId)
    requires x in s
    ensures multiset(RemoveFirst(s, x)) + multiset{x} == multiset(s)
  {
    var k := FirstIndex(s, x);
    var a, b := s[..k], s[k + 1..];
    assert s == a + [x] + b;
    RemoveAfter(a, x, b);
    assert multiset(a + [x] + b) == multiset(a) + multiset{x} + multiset(b);
    assert multiset(a + b) == multiset(a) + multiset(b);
  }

  /** `RemoveDeadzone`: restore the widened nodes, take the plugin's own node
      out of the level, forget both. */
  function RemoveDeadzone(l: Level, h: Handle): (r: (Level, Handle))
    ensures r.1 == NoHandle
    ensures h == NoHandle ==> r.0 == l
    ensures r.0.nodes == if h.created.Some? then RemoveFirst(l.nodes, h.created.value) else l.nodes
  {
    var l1 := match h.widening
      case None => l
      case Some(w) => RestoreFrom(l, w.nodes, w.originals);
    match h.created
    case None => (l1, NoHandle)
    case Some(c) => (Level(RemoveFirst(l1.nodes, c), l1.radius - {c}), NoHandle)
  }

  /** A second removal has nothing left to undo. */
  lemma RemoveTwice(l: Level, h: Handle)
    ensures var (l1, h1) := RemoveDeadzone(l, h); RemoveDeadzone(l1, h1) == (l1, h1)
  {
  }

  /** `CreateDeadzone`: undo any previous deadzone, then widen the level's
      nodes if it has any, else add a node of the target radius when one can
      be built and registered (`canCreate`). */
  function CreateDeadzone(cfg: Config, l: Level, h: Handle, coverRadius: real, canCreate: bool): (r: (Level, Handle))
    ensures !cfg.useDeadzone ==> r == (l, h)
    ensures cfg.useDeadzone ==> r.1.widening.None? || r.1.created.None?
    ensures cfg.useDeadzone && r.1.widening.Some? ==>
      r.1.widening.value.nodes == r.0.nodes
      && forall n :: n in r.0.nodes ==> n in r.0.radius && TargetRadius(cfg, coverRadius) <= r.0.radius[n]
    ensures cfg.useDeadzone && r.1.created.Some? ==>
      r.0.nodes == [r.1.created.value] && r.1.created.value in r.0.radius
      && r.0.radius[r.1.created.value] == TargetRadius(cfg, coverRadius)
    ensures cfg.useDeadzone && r.1 == NoHandle ==> r.0 == RemoveDeadzone(l, h).0
  {
    if !cfg.useDeadzone then (l, h)
    else
      var (l1, _) := RemoveDeadzone(l, h);
      var target := TargetRadius(cfg, coverRadius);
      if |l1.nodes| > 0 then
        WidenRadii(l1, Widening([], map[]), l1.nodes, target);
        var (l2, w, _) := EnableNodes(l1, target);
        (l2, Handle(Some(w), None))
      else if !canCreate then (l1, NoHandle)
      else (Level(l1.nodes + [NewNodeId], l1.radius[NewNodeId := target]), Handle(None, Some(NewNodeId)))
  }

  /** The handle describes the level: no handle, a widening of exactly the
      level's nodes, or the plugin's node as the level's only node. */
  predicate Fits(l: Level, h: Handle)
  {
    || h == NoHandle
    || (h.widening.Some? && h.created.None? && h.widening.value.nodes == l.nodes)
    || (h.widening.None? && h.created.Some? && l.nodes == [h.created.value])
  }

  /** Removing a fitting handle keeps the level well formed. */
  lemma RemoveKeepsWellFormed(l: Level, h: Handle)
    requires WellFormed(l) && Fits(l, h)
    ensures WellFormed(RemoveDeadzone(l, h).0)
  {
    if h.created.Some? {
      var c := h.created.value;
      assert RemoveFirst(l.nodes, c) == [];
    }
  }

  /** Creating keeps the level well formed and leaves a fitting handle. */
  lemma CreateKeepsWellFormed(cfg: Config, l: Level, h: Handle, coverRadius: real, canCreate: bool)
    requires WellFormed(l) && Fits(l, h)
    ensures WellFormed(CreateDeadzone(cfg, l, h, coverRadius, canCreate).0)
    ensures Fits(CreateDeadzone(cfg, l, h, coverRadius, canCreate).0, CreateDeadzone(cfg, l, h, coverRadius, canCreate).1)
  {
    if cfg.useDeadzone {
      RemoveKeepsWellFormed(l, h);
      var (l1, _) := RemoveDeadzone(l, h);
      if |l1.nodes| > 0 {
        WidenRaises(l1, TargetRadius(cfg, coverRadius));
      } else {
        assert l1.radius == map[];
      }
    }
  }

  /** Widening then restoring a duplicate-free node list gives the level back. */
  lemma WidenRestoreRoundTrip(l: Level, target: real)
    requires WellFormed(l) && NoDup(l.nodes)
    ensures RestoreFrom(EnableNodes(l, target).0, EnableNodes(l, target).1.nodes, EnableNodes(l, target).1.originals) == l
  {
    WidenRaises(l, target);
    WidenRecordsOriginals(l, target);
    RestoreRecorded(l, EnableNodes(l, target).0, EnableNodes(l, target).1.originals);
  }

  /** Restoring the recorded radii of every node of `l` onto a level with the
      same nodes and radius keys gives `l`. */
  lemma RestoreRecorded(l: Level, l1: Level, originals: map<NodeId, real>)
    requires WellFormed(l) && l1.nodes == l.nodes && l1.radius.Keys == l.radius.Keys
    requires forall n :: n in l.nodes ==> n in originals && originals[n] == l.radius[n]
    ensures RestoreFrom(l1, l.nodes, originals) == l
  {
    var l2 := RestoreFrom(l1, l.nodes, originals);
    assert l2.radius.Keys == l.radius.Keys;
    assert l2.radius == l.radius;
  }

  /** Starting then stopping the deadzone on a well-formed, duplicate-free
      level leaves the level exactly as it was. */
  lemma CreateRemoveRoundTrip(cfg: Config, l: Level, coverRadius: real, canCreate: bool)
    requires WellFormed(l) && NoDup(l.nodes)
    ensures RemoveDeadzone(CreateDeadzone(cfg, l, NoHandle, coverRadius, canCreate).0,
                           CreateDeadzone(cfg, l, NoHandle, coverRadius, canCreate).1) == (l, NoHandle)
  {
    if cfg.useDeadzone && |l.nodes| > 0 {
      WidenRestoreRoundTrip(l, TargetRadius(cfg, coverRadius));
    } else if cfg.useDeadzone && canCreate {
      assert l.nodes == [] && l.radius == map[];
      var l1 := CreateDeadzone(cfg, l, NoHandle, coverRadius, canCreate).0;
      assert RemoveFirst(l1.nodes, NewNodeId) == [];
      assert l1.radius - {NewNodeId} == map[];
    }
  }

  /** A node listed twice has its recorded radius overwritten by its widened
      radius on the second visit, so stopping leaves it widened. */
  lemma DuplicateNodeStaysWidened()
    ensures EnableNodes(Level([7, 7], map[7 := 10.0]), 50.0).1.originals[7] == 50.0
    ensures RestoreFrom(EnableNodes(Level([7, 7], map[7 := 10.0]), 50.0).0,
                        EnableNodes(Level([7, 7], map[7 := 10.0]), 50.0).1.nodes,
                        EnableNodes(Level([7, 7], map[7 := 10.0]), 50.0).1.originals).radius[7] == 50.0
  {
    var l := Level([7, 7], map[7 := 10.0]);
    assert Max(10.0, 50.0) == 50.0;
    assert [7, 7][1..] == [7];
    var w0 := Widening([], map[]);
    var la := l.(radius := l.radius[7 := Max(RadiusOf(l, 7), 50.0)]);
    var wa := Widening(w0.nodes + [7], w0.originals[7 := RadiusOf(l, 7)]);
    assert WidenFrom(l, w0, [7, 7], 50.0) == WidenFrom(la, wa, [7], 50.0);
    assert RadiusOf(la, 7) == 50.0;
    assert Max(50.0, 50.0) == 50.0;
    var lb := la.(radius := la.radius[7 := Max(RadiusOf(la, 7), 50.0)]);
    var wb := Widening(wa.nodes + [7], wa.originals[7 := RadiusOf(la, 7)]);
    assert [7][1..] == [];
    assert WidenFrom(la, wa, [7], 50.0) == WidenFrom(lb, wb, [], 50.0);
    assert wb.originals[7] == 50.0;
  }
}
