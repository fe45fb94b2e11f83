/** Node database and discovery: each tick replaces the node set and reports the difference. */
module Discover {
  import opened Basics

  datatype ID = ID(name: string)

  datatype Node = Node(id: ID, addr: string)

  datatype Event = Conn(node: Node) | Disc(node: Node)

  /** Every node is stored under its own identity. */
  predicate Keyed(nodes: map<ID, Node>) { forall k :: k in nodes ==> nodes[k].id == k }

  function Ids(ns: seq<Node>): (r: set<ID>) { set i | 0 <= i < |ns| :: ns[i].id }

  predicate Distinct(ns: seq<Node>) { forall i, j :: 0 <= i < j < |ns| ==> ns[i].id != ns[j].id }

  lemma IdsSnoc(ns: seq<Node>, n: Node)
    ensures Ids(ns + [n]) == Ids(ns) + {n.id}
    ensures Distinct(ns + [n]) <==> Distinct(ns) && n.id !in Ids(ns)
  {
    var s := ns + [n];
    assert s[|ns|] == n && forall i :: 0 <= i < |ns| ==> s[i] == ns[i];
  }

  /** s lists the nodes of m with the given keys, each once. */
  ghost predicate Lists(s: seq<Node>, m: map<ID, Node>, keys: set<ID>) {
    keys <= m.Keys && Ids(s) == keys && Distinct(s) && forall i :: 0 <= i < |s| ==> s[i].id in m && s[i] == m[s[i].id]
  }

  /** The nodes of m whose key is absent from other, in the order the map happens to be walked. */
  method Missing(m: map<ID, Node>, other: map<ID, Node>) returns (s: seq<Node>)
    requires Keyed(m)
    ensures Lists(s, m, m.Keys - other.Keys)
  {
    s := [];
    var todo := m.Keys;
    while todo != {}
      invariant todo <= m.Keys && Lists(s, m, m.Keys - todo - other.Keys)
    {
      hide Ids, Distinct;
      var k :| k in todo;
      ghost var before := m.Keys - todo - other.Keys;
      todo := todo - {k};
      if k !in other {
        IdsSnoc(s, m[k]);
        s := s + [m[k]];
        assert m.Keys - todo - other.Keys == before + {k};
      } else {
        assert m.Keys - todo - other.Keys == before;
      }
    }
  }

  class DB {
    var home: Option<Node>
    var nodes: map<ID, Node>

    constructor ()
      ensures home.None? && nodes == map[]
    {
      home, nodes := None, map[];
    }

    /** `Choose`: which nodes are new and which are gone. */
    method Choose(news: map<ID, Node>) returns (added: seq<Node>, removed: seq<Node>)
      requires Keyed(nodes) && Keyed(news)
      ensures Lists(added, news, news.Keys - nodes.Keys)
      ensures Lists(removed, nodes, nodes.Keys - news.Keys)
    {
      removed := Missing(nodes, news);
      added := Missing(news, nodes);
    }

    method Replace(news: map<ID, Node>)
      modifies `nodes
      ensures nodes == news
    {
      nodes := news;
    }
  }

  // ---------------------------------------------------------------- reading an event stream

  /** The set of connected identities after the events; None when a connected node connects or an
      absent one disconnects. */
  function Fold(es: seq<Event>): (r: Option<set<ID>>) {
    if es == [] then Some({})
    else FoldStep(Fold(es[..|es| - 1]), es[|es| - 1])
  }

  /** The events of one identity: true for Conn, false for Disc. */
  function Project(es: seq<Event>, id: ID): (r: seq<bool>) {
    if es == [] then []
    else Project(es[..|es| - 1], id) + if es[|es| - 1].node.id == id then [es[|es| - 1].Conn?] else []
  }

  predicate Alternates(bs: seq<bool>) { forall i :: 0 <= i < |bs| ==> (bs[i] <==> i % 2 == 0) }

  function FoldStep(s: Option<set<ID>>, e: Event): (r: Option<set<ID>>) {
    if s.None? || (e.node.id in s.value) == e.Conn? then None
    else if e.Conn? then Some(s.value + {e.node.id})
    else Some(s.value - {e.node.id})
  }

  lemma FoldSnoc(es: seq<Event>, e: Event)
    ensures Fold(es + [e]) == FoldStep(Fold(es), e)
  {
    assert (es + [e])[..|es|] == es;
  }

  lemma ProjectSnoc(es: seq<Event>, e: Event, id: ID)
    ensures Project(es + [e], id) == Project(es, id) + if e.node.id == id then [e.Conn?] else []
  {
    assert (es + [e])[..|es|] == es;
  }

  lemma AlternatesSnoc(p: seq<bool>, b: bool)
    ensures Alternates(p + [b]) <==> Alternates(p) && (b <==> |p| % 2 == 0)
  {
    assert (p + [b])[|p|] == b && forall i :: 0 <= i < |p| ==> (p + [b])[i] == p[i];
  }

  /** The stream folds if and only if each identity's events alternate, to the identities with an
      odd number of events. */
  ghost predicate FoldsByIdentity(es: seq<Event>) {
    && (Fold(es).Some? <==> forall id: ID :: Alternates(Project(es, id)))
    && (Fold(es).Some? ==> forall id: ID :: id in Fold(es).value <==> |Project(es, id)| % 2 == 1)
  }

  lemma FoldExactStep(front: seq<Event>, e: Event)
    requires FoldsByIdentity(front)
    ensures FoldsByIdentity(front + [e])
  {
    hide Fold, Project, Alternates;
    var es, x := front + [e], e.node.id;
    FoldSnoc(front, e);
    forall id: ID ensures Project(es, id) == if x == id then Project(front, id) + [e.Conn?] else Project(front, id) {
      ProjectSnoc(front, e, id);
      assert Project(front, id) + [] == Project(front, id);
    }
    AlternatesSnoc(Project(front, x), e.Conn?);
    if forall id: ID :: Alternates(Project(es, id)) {
      forall id: ID ensures Alternates(Project(front, id)) {
        assert Alternates(Project(es, id));
      }
      assert Fold(front).Some?;
    }
  }

  /** A stream can be folded exactly when the events of every identity strictly alternate starting
      with Conn, and then an identity is in the result exactly when its last event is a Conn. */
  lemma {:induction false} FoldExact(es: seq<Event>)
    ensures FoldsByIdentity(es)
  {
    if es == [] {
      assert forall id: ID :: Project(es, id) == [];
    } else {
      FoldExact(es[..|es| - 1]);
      FoldExactStep(es[..|es| - 1], es[|es| - 1]);
      assert es == es[..|es| - 1] + [es[|es| - 1]];
    }
  }

  function ConnAll(ns: seq<Node>): (r: seq<Event>) { if ns == [] then [] else ConnAll(ns[..|ns| - 1]) + [Conn(ns[|ns| - 1])] }

  function DiscAll(ns: seq<Node>): (r: seq<Event>) { if ns == [] then [] else DiscAll(ns[..|ns| - 1]) + [Disc(ns[|ns| - 1])] }

  lemma {:induction false} FoldDisc(es: seq<Event>, s: set<ID>, ns: seq<Node>)
    requires Fold(es) == Some(s) && Distinct(ns) && Ids(ns) <= s
    ensures Fold(es + DiscAll(ns)) == Some(s - Ids(ns))
    decreases |ns|
  {
    hide Fold;
    if ns == [] {
      assert es + DiscAll(ns) == es && s - Ids(ns) == s;
    } else {
      var front, n := ns[..|ns| - 1], ns[|ns| - 1];
      assert ns == front + [n];
      IdsSnoc(front, n);
      assert Distinct(front) && n.id !in Ids(front) && Ids(ns) == Ids(front) + {n.id};
      FoldDisc(es, s, front);
      assert es + DiscAll(ns) == es + DiscAll(front) + [Disc(n)];
      FoldSnoc(es + DiscAll(front), Disc(n));
      assert s - Ids(front) - {n.id} == s - Ids(ns);
    }
  }

  lemma {:induction false} FoldConn(es: seq<Event>, s: set<ID>, ns: seq<Node>)
    requires Fold(es) == Some(s) && Distinct(ns) && Ids(ns) !! s
    ensures Fold(es + ConnAll(ns)) == Some(s + Ids(ns))
    decreases |ns|
  {
    hide Fold;
    if ns == [] {
      assert es + ConnAll(ns) == es && s + Ids(ns) == s;
    } else {
      var front, n := ns[..|ns| - 1], ns[|ns| - 1];
      assert ns == front + [n];
      IdsSnoc(front, n);
      assert Distinct(front) && n.id !in Ids(front) && Ids(ns) == Ids(front) + {n.id};
      FoldConn(es, s, front);
      assert es + ConnAll(ns) == es + ConnAll(front) + [Conn(n)];
      FoldSnoc(es + ConnAll(front), Conn(n));
      assert s + Ids(front) + {n.id} == s + Ids(ns);
    }
  }

  /** Reporting what is gone and then what is new takes the stream from the old set to the new. */
  lemma FoldTick(es: seq<Event>, prev: map<ID, Node>, news: map<ID, Node>, gone: seq<Node>, added: seq<Node>)
    requires Fold(es) == Some(prev.Keys)
    requires Lists(gone, prev, prev.Keys - news.Keys) && Lists(added, news, news.Keys - prev.Keys)
    ensures Fold(es + DiscAll(gone) + ConnAll(added)) == Some(news.Keys)
  {
    hide Fold, Ids, Distinct;
    FoldDisc(es, prev.Keys, gone);
    var kept := prev.Keys - Ids(gone);
    FoldConn(es + DiscAll(gone), kept, added);
    assert kept + Ids(added) == news.Keys;
  }

  // ---------------------------------------------------------------- what a tick reports

  /** es says exactly how the node set changes: one Disc for every identity that is gone, one Conn for
      every new one, nothing about any other; each with the node that was or is stored, and the
      disconnections first. */
  ghost predicate Reports(es: seq<Event>, prev: map<ID, Node>, news: map<ID, Node>) {
    && (forall id: ID :: Project(es, id) == if id in prev && id !in news then [false]
                                            else if id in news && id !in prev then [true] else [])
    && (forall i, j :: 0 <= i < j < |es| && es[i].Conn? ==> es[j].Conn?)
    && (forall i :: 0 <= i < |es| ==>
          var n := es[i].node; if es[i].Conn? then n.id in news && news[n.id] == n else n.id in prev && prev[n.id] == n)
  }

  lemma {:induction false} ProjectConcat(a: seq<Event>, b: seq<Event>, id: ID)
    ensures Project(a + b, id) == Project(a, id) + Project(b, id)
    decreases |b|
  {
    if b == [] {
      assert a + b == a;
    } else {
      var front, e := b[..|b| - 1], b[|b| - 1];
      assert a + b == (a + front) + [e] && b == front + [e];
      ProjectSnoc(a + front, e, id);
      ProjectSnoc(front, e, id);
      ProjectConcat(a, front, id);
    }
  }

  /** The events of a list of distinct nodes, and their projection. */
  lemma {:induction false} AllOf(ns: seq<Node>, id: ID)
    requires Distinct(ns)
    ensures Project(ConnAll(ns), id) == (if id in Ids(ns) then [true] else [])
    ensures Project(DiscAll(ns), id) == (if id in Ids(ns) then [false] else [])
    ensures |ConnAll(ns)| == |DiscAll(ns)| == |ns|
    ensures forall i :: 0 <= i < |ns| ==> ConnAll(ns)[i] == Conn(ns[i]) && DiscAll(ns)[i] == Disc(ns[i])
  {
    hide Project;
    if ns == [] {
      assert Project([], id) == [] by { NothingProjected(id); }
    } else {
      var front, n := ns[..|ns| - 1], ns[|ns| - 1];
      assert ns == front + [n];
      IdsSnoc(front, n);
      AllOf(front, id);
      ProjectSnoc(ConnAll(front), Conn(n), id);
      ProjectSnoc(DiscAll(front), Disc(n), id);
    }
  }

  lemma NothingProjected(id: ID)
    ensures Project([], id) == []
  {
  }

  lemma TickReports(prev: map<ID, Node>, news: map<ID, Node>, gone: seq<Node>, added: seq<Node>)
    requires Lists(gone, prev, prev.Keys - news.Keys) && Lists(added, news, news.Keys - prev.Keys)
    ensures Reports(DiscAll(gone) + ConnAll(added), prev, news)
  {
    hide Project, Ids, Distinct, ConnAll, DiscAll;
    AllOf(gone, ID(""));
    AllOf(added, ID(""));
    forall id: ID ensures Project(DiscAll(gone) + ConnAll(added), id) ==
      if id in prev && id !in news then [false] else if id in news && id !in prev then [true] else []
    {
      ProjectConcat(DiscAll(gone), ConnAll(added), id);
      AllOf(gone, id);
      AllOf(added, id);
    }
  }

  lemma LastProjected(es: seq<Event>)
    ensures es != [] ==> Project(es, es[|es| - 1].node.id) != []
  {
  }

  /** A tick that changes nothing reports nothing. */
  lemma NoChangeReports(es: seq<Event>, prev: map<ID, Node>, news: map<ID, Node>)
    requires Reports(es, prev, news) && prev.Keys == news.Keys
    ensures es == []
  {
    hide Project;
    LastProjected(es);
  }

  lemma NothingReports(nodes: map<ID, Node>)
    ensures Reports([], nodes, nodes)
  {
  }

  // ---------------------------------------------------------------- the discovery loop

  /** Of the nodes that share an identity, the map holds the last one of ns. */
  predicate HoldsLast(nodes: map<ID, Node>, ns: seq<Node>) {
    forall i :: 0 <= i < |ns| && ns[i].id !in Ids(ns[i + 1..]) ==> ns[i].id in nodes && nodes[ns[i].id] == ns[i]
  }

  lemma HoldsLastSnoc(nodes: map<ID, Node>, ns: seq<Node>, n: Node)
    requires HoldsLast(nodes, ns)
    ensures HoldsLast(nodes[n.id := n], ns + [n])
  {
    var all := ns + [n];
    forall i | 0 <= i < |ns| && all[i].id !in Ids(all[i + 1..])
      ensures ns[i].id !in Ids(ns[i + 1..]) && ns[i].id != n.id
    {
      assert all[i + 1..] == ns[i + 1..] + [n];
      IdsSnoc(ns[i + 1..], n);
    }
  }

  lemma NoneWanted(peers: seq<Node>, wanted: seq<Node>, nodes: map<ID, Node>)
    requires |peers| == 0 && |nodes| == 0 && forall n :: n in wanted ==> n in peers
    ensures nodes.Keys == {} == Ids(wanted) && HoldsLast(nodes, wanted)
  {
    assert forall i :: 0 <= i < |wanted| ==> wanted[i] in peers;
  }

  class Discover {
    const db: DB
    // Every event sent so far, in the order of the sends.
    var sent: seq<Event>

    constructor (db: DB)
      requires db.nodes == map[]
      ensures this.db == db && sent == [] && Faithful()
    {
      this.db := db;
      sent := [];
      new;
      assert db.nodes.Keys == {};
    }

    /** Folding the events sent so far gives the database's node set. */
    ghost predicate Faithful()
      reads this, db
    {
      Keyed(db.nodes) && Fold(sent) == Some(db.nodes.Keys)
    }

    /** `MakeNodesMap`: a later connection of the same node replaces an earlier one. */
    method MakeNodesMap(conns: seq<Node>) returns (nodes: map<ID, Node>)
      ensures Keyed(nodes) && nodes.Keys == Ids(conns) && HoldsLast(nodes, conns)
    {
      nodes := map[];
      for i := 0 to |conns|
        invariant Keyed(nodes) && nodes.Keys == Ids(conns[..i]) && HoldsLast(nodes, conns[..i])
      {
        HoldsLastSnoc(nodes, conns[..i], conns[i]);
        assert conns[..i + 1] == conns[..i] + [conns[i]];
        nodes := nodes[conns[i].id := conns[i]];
        assert forall j :: 0 <= j < i ==> conns[..i + 1][j] == conns[..i][j];
        assert conns[..i + 1][i] == conns[i];
        assert Ids(conns[..i + 1]) == Ids(conns[..i]) + {conns[i].id};
      }
      assert conns[..|conns|] == conns;
    }

    /** One tick: self is the local node if the daemon answers, peers what the swarm reports, wanted
        what the filter keeps of them.  The node set becomes the wanted one unless the tick is
        skipped, and the events reported keep the stream faithful. */
    method Tick(self: Option<Node>, peers: seq<Node>, wanted: seq<Node>)
      requires Faithful() && forall n :: n in wanted ==> n in peers
      modifies this, db
      ensures Faithful()
      ensures old(db.home).None? && self.None? ==> db.nodes == old(db.nodes) && db.home.None?
      ensures old(db.home).Some? || self.Some? ==>
        db.nodes.Keys == Ids(wanted) && HoldsLast(db.nodes, wanted) &&
        db.home == (if old(db.home).Some? then old(db.home) else self)
      ensures old(sent) <= sent && Reports(sent[|old(sent)|..], old(db.nodes), db.nodes)
      ensures old(db.nodes).Keys == db.nodes.Keys ==> sent == old(sent)
    {
      hide Distinct, Fold, ConnAll, DiscAll, Reports, Lists, Ids, HoldsLast;
      NothingReports(db.nodes);
      assert sent[|sent|..] == [];
      if db.home.None? {
        if self.None? { return; }
        db.home := self;
      }
      if |peers| == 0 && |db.nodes| == 0 {
        NoneWanted(peers, wanted, db.nodes);
        return;
      }
      var latest := MakeNodesMap(wanted);
      var connected, disconnected := db.Choose(latest);
      FoldTick(sent, db.nodes, latest, disconnected, connected);
      db.Replace(latest);
      Notify(disconnected, connected);
      TickReports(old(db.nodes), latest, disconnected, connected);
      assert sent[|old(sent)|..] == DiscAll(disconnected) + ConnAll(connected);
      if old(db.nodes).Keys == latest.Keys { NoChangeReports(sent[|old(sent)|..], old(db.nodes), latest); }
    }

    /** Disconnections are reported first. */
    method Notify(disconnected: seq<Node>, connected: seq<Node>)
      modifies `sent
      ensures sent == old(sent) + DiscAll(disconnected) + ConnAll(connected)
    {
      for i := 0 to |disconnected|
        invariant sent == old(sent) + DiscAll(disconnected[..i])
      {
        assert disconnected[..i + 1][..i] == disconnected[..i];
        sent := sent + [Disc(disconnected[i])];
      }
      assert disconnected[..|disconnected|] == disconnected;
      ghost var s1 := sent;
      for i := 0 to |connected|
        invariant sent == s1 + ConnAll(connected[..i])
      {
        assert connected[..i + 1][..i] == connected[..i];
        sent := sent + [Conn(connected[i])];
      }
      assert connected[..|connected|] == connected;
    }
  }

  /** So at every point between ticks each node's events alternate, starting with Conn, and a node
      is in the database exactly when it was connected last. */
  lemma FaithfulStream(d: Discover, id: ID)
    requires d.Faithful()
    ensures Alternates(Project(d.sent, id))
    ensures id in d.db.nodes <==> |Project(d.sent, id)| % 2 == 1
  {
    FoldExact(d.sent);
  }
}
