/**
 * Properties of the scalar-clock replication protocol that relate several
 * handler calls: how snapshots combine at a receiver, what a receiver holds
 * after a sender's broadcast reaches it, and what every run of a node keeps.
 */
module Replication {
  import opened Wrappers
  import opened Decimal
  import opened Blackboard
  import opened Server

  /** The node a receiver is left with after one POST /update. */
  function Apply(n: Node, m: Form): Node {
    UpdateBlackboardContent(n, m).node
  }

  /** The node that installing `m` would produce. */
  function Installed(m: Form): Node
    requires Carried(m).Some?
  {
    Node(Strip(m), Carried(m).value)
  }

  /** Snapshots delivered one after the other, in sequence order. */
  function DeliverAll(n: Node, ms: seq<Form>): Node
    decreases |ms|
  {
    if |ms| == 0 then n else DeliverAll(Apply(n, ms[0]), ms[1..])
  }

  // ------------------------------------------------------- two snapshots

  /**
   * Two snapshots whose clocks differ give the same node in either order:
   * the one with the higher clock if that clock is ahead of the node,
   * otherwise the node untouched.
   */
  lemma DistinctClocksCommute(n: Node, m1: Form, m2: Form)
    requires Carried(m1).Some? && Carried(m2).Some?
    requires Carried(m1).value != Carried(m2).value
    ensures Apply(Apply(n, m1), m2) == Apply(Apply(n, m2), m1)
    ensures var hi := if Carried(m1).value > Carried(m2).value then m1 else m2;
            Apply(Apply(n, m1), m2) == if Carried(hi).value > n.clock then Installed(hi) else n
  {
  }

  /**
   * Two snapshots carrying the same clock ahead of the node: the first to
   * arrive is installed and the second is refused, so the result is always
   * one of the two and never a mixture.
   */
  lemma EqualClocksFirstArrivalWins(n: Node, m1: Form, m2: Form)
    requires Carried(m1).Some? && Carried(m1) == Carried(m2)
    requires Carried(m1).value > n.clock
    ensures Apply(Apply(n, m1), m2) == Installed(m1)
    ensures Apply(Apply(n, m2), m1) == Installed(m2)
  {
  }

  // ---------------------------------------------------- many snapshots

  /** Delivering `a` then `b` is delivering their concatenation. */
  lemma {:induction false} DeliverAllConcat(n: Node, a: seq<Form>, b: seq<Form>)
    ensures DeliverAll(n, a + b) == DeliverAll(DeliverAll(n, a), b)
    decreases |a|
  {
    if |a| > 0 {
      assert (a + b)[1..] == a[1..] + b;
      DeliverAllConcat(Apply(n, a[0]), a[1..], b);
    } else {
      assert a + b == b;
    }
  }

  /**
   * After any sequence of snapshots the clock is the largest of the node's
   * own clock and every clock carried, and the node is either unchanged or
   * exactly the installation of one of the snapshots.
   */
  lemma {:induction false} DeliverAllIsMax(n: Node, ms: seq<Form>)
    ensures DeliverAll(n, ms).clock >= n.clock
    ensures forall i :: 0 <= i < |ms| && Carried(ms[i]).Some? ==> DeliverAll(n, ms).clock >= Carried(ms[i]).value
    ensures DeliverAll(n, ms) == n
            || exists i :: 0 <= i < |ms| && Carried(ms[i]).Some? && DeliverAll(n, ms) == Installed(ms[i])
    decreases |ms|
  {
    if |ms| > 0 {
      var n1 := Apply(n, ms[0]);
      DeliverAllIsMax(n1, ms[1..]);
      var r := DeliverAll(n, ms);
      assert r == DeliverAll(n1, ms[1..]);
      forall i | 0 <= i < |ms| && Carried(ms[i]).Some?
        ensures r.clock >= Carried(ms[i]).value
      {
        if i > 0 {
          assert ms[i] == ms[1..][i - 1];
        }
      }
      if r != n {
        if r == n1 {
          assert Carried(ms[0]).Some? && r == Installed(ms[0]);
        } else {
          var j :| 0 <= j < |ms[1..]| && Carried(ms[1..][j]).Some? && r == Installed(ms[1..][j]);
          assert ms[1..][j] == ms[j + 1];
        }
      }
    }
  }

  /** Snapshots no newer than the node change nothing. */
  lemma {:induction false} StaleSnapshotsIgnored(n: Node, ms: seq<Form>)
    requires forall i :: 0 <= i < |ms| && Carried(ms[i]).Some? ==> Carried(ms[i]).value <= n.clock
    ensures DeliverAll(n, ms) == n
    decreases |ms|
  {
    if |ms| > 0 {
      assert Apply(n, ms[0]) == n;
      assert forall i :: 0 <= i < |ms[1..]| ==> ms[1..][i] == ms[i + 1];
      StaleSnapshotsIgnored(n, ms[1..]);
    }
  }

  /**
   * Whatever order the snapshots arrive in, a snapshot whose clock is
   * strictly above every other carried clock and the node's own ends up
   * installed.
   */
  lemma {:induction false} HighestClockWins(n: Node, ms: seq<Form>, j: nat)
    requires j < |ms| && Carried(ms[j]).Some?
    requires Carried(ms[j]).value > n.clock
    requires forall i :: 0 <= i < |ms| && i != j && Carried(ms[i]).Some? ==> Carried(ms[i]).value < Carried(ms[j]).value
    ensures DeliverAll(n, ms) == Installed(ms[j])
    decreases |ms|
  {
    var n1 := Apply(n, ms[0]);
    assert forall i :: 0 <= i < |ms[1..]| ==> ms[1..][i] == ms[i + 1];
    if j == 0 {
      StaleSnapshotsIgnored(n1, ms[1..]);
    } else {
      HighestClockWins(n1, ms[1..], j - 1);
    }
  }

  /** The clock never goes back: a longer prefix of any delivery sequence leaves a clock at least as large. */
  lemma ClockNeverDecreases(n: Node, ms: seq<Form>, i: nat, j: nat)
    requires i <= j <= |ms|
    ensures DeliverAll(n, ms[..i]).clock <= DeliverAll(n, ms[..j]).clock
  {
    assert ms[..j] == ms[..i] + ms[i..j];
    DeliverAllConcat(n, ms[..i], ms[i..j]);
    DeliverAllIsMax(DeliverAll(n, ms[..i]), ms[i..j]);
  }

  // ------------------------------------------------ sender and receiver

  /** A board without control keys lets the message carry the sender's clock intact. */
  lemma MessageCarriesClock(form: Form, n: Node)
    requires NoControlKeys(n.board)
    ensures Carried(Message(form, n)) == Some(n.clock)
  {
    ParseIntOfIntToString(n.clock);
  }

  /** What a receiver keeps of a message: the request's non-control fields overlaid with the sender's board. */
  lemma StripMessage(form: Form, n: Node)
    requires NoControlKeys(n.board)
    ensures Strip(Message(form, n)) == Strip(form) + n.board
  {
  }

  /**
   * A snapshot message reaching a peer whose clock is behind the sender's
   * makes the peer adopt the sender's clock and board, plus whatever extra
   * fields the original request carried; a peer that is not behind ignores it.
   */
  lemma SnapshotDelivery(sender: Node, form: Form, peer: Node)
    requires NoControlKeys(sender.board)
    ensures UpdateBlackboardContent(peer, Message(form, sender)).status == Done
    ensures sender.clock > peer.clock ==>
              Apply(peer, Message(form, sender)) == Node(Strip(form) + sender.board, sender.clock)
    ensures sender.clock <= peer.clock ==> Apply(peer, Message(form, sender)) == peer
  {
    MessageCarriesClock(form, sender);
    StripMessage(form, sender);
  }

  /** A request holding only control fields contributes no entry to what a receiver installs. */
  lemma EmptyStripIsNeutral(form: Form, b: Board)
    requires form.Keys <= ControlKeys
    ensures Strip(form) + b == b
  {
    assert Strip(form).Keys == {};
    var u := Strip(form) + b;
    assert u.Keys == b.Keys;
    assert forall k :: k in u ==> u[k] == b[k];
  }

  /**
   * A message built from a request holding only control fields turns a peer
   * that is behind into an exact copy of the sender.
   */
  lemma ReplicaOfSender(sender: Node, form: Form, peer: Node)
    requires NoControlKeys(sender.board)
    requires form.Keys <= ControlKeys
    requires peer.clock < sender.clock
    ensures Apply(peer, Message(form, sender)) == sender
  {
    SnapshotDelivery(sender, form, peer);
    EmptyStripIsNeutral(form, sender.board);
  }

  /**
   * After an add, every peer the broadcast reaches that was not ahead of the
   * writer adopts the writer's clock and board, plus the request's fields
   * other than `clock`, `entry` and `delete`.
   */
  lemma AddEntryDelivers(cfg: Config, n: Node, form: Form, entry: string, id: int, peer: Node, s: Send)
    requires 0 <= id <= 9999
    requires NoControlKeys(n.board)
    requires peer.clock <= n.clock
    requires s in AddEntry(cfg, n, form, entry, id).sent
    ensures Apply(peer, s.form) == Node(Strip(form) + AddEntry(cfg, n, form, entry, id).node.board, n.clock + 1)
  {
    var o := AddEntry(cfg, n, form, entry, id);
    assert s.form == Message(form, o.node);
    SnapshotDelivery(o.node, form, peer);
  }

  /**
   * When the add request holds only control fields, every peer the
   * broadcast reaches that was not ahead of the writer becomes an exact
   * replica of the writer.
   */
  lemma AddEntryReplicates(cfg: Config, n: Node, form: Form, entry: string, id: int, peer: Node, s: Send)
    requires 0 <= id <= 9999
    requires NoControlKeys(n.board)
    requires form.Keys <= ControlKeys
    requires peer.clock <= n.clock
    requires s in AddEntry(cfg, n, form, entry, id).sent
    ensures Apply(peer, s.form) == AddEntry(cfg, n, form, entry, id).node
  {
    var o := AddEntry(cfg, n, form, entry, id);
    assert s.form == Message(form, o.node);
    ReplicaOfSender(o.node, form, peer);
  }

  /** The same for a successful modify or delete: the peer adopts the writer's clock and board plus the request's non-control fields. */
  lemma ModifyEntryDelivers(cfg: Config, n: Node, param: string, form: Form, entry: string, peer: Node, s: Send)
    requires param in n.board
    requires NoControlKeys(n.board)
    requires peer.clock <= n.clock
    requires s in ModifyEntry(cfg, n, param, form, entry).sent
    ensures Apply(peer, s.form) == Node(Strip(form) + ModifyEntry(cfg, n, param, form, entry).node.board, n.clock + 1)
  {
    var o := ModifyEntry(cfg, n, param, form, entry);
    assert s.form == Message(form, o.node);
    SnapshotDelivery(o.node, form, peer);
  }

  /** With only control fields in the modify request, every reached peer that was not ahead becomes an exact replica. */
  lemma ModifyEntryReplicates(cfg: Config, n: Node, param: string, form: Form, entry: string, peer: Node, s: Send)
    requires param in n.board
    requires NoControlKeys(n.board)
    requires form.Keys <= ControlKeys
    requires peer.clock <= n.clock
    requires s in ModifyEntry(cfg, n, param, form, entry).sent
    ensures Apply(peer, s.form) == ModifyEntry(cfg, n, param, form, entry).node
  {
    var o := ModifyEntry(cfg, n, param, form, entry);
    assert s.form == Message(form, o.node);
    ReplicaOfSender(o.node, form, peer);
  }

  /**
   * Two nodes in the same state each add an entry at the same time: both
   * reach the same clock, each refuses the other's snapshot, and their
   * boards stay different. Concurrent writes are not reconciled.
   */
  lemma EqualClockWritesDiverge(cfgA: Config, cfgB: Config, n: Node, formA: Form, formB: Form,
                                entryA: string, entryB: string, idA: int, idB: int)
    requires 0 <= idA <= 9999 && 0 <= idB <= 9999 && idA != idB
    requires IntToString(idA) !in n.board
    requires NoControlKeys(n.board)
    ensures var a := AddEntry(cfgA, n, formA, entryA, idA).node;
            var b := AddEntry(cfgB, n, formB, entryB, idB).node;
            Apply(a, Message(formB, b)) == a
            && Apply(b, Message(formA, a)) == b
            && a.board != b.board
  {
    var a := AddEntry(cfgA, n, formA, entryA, idA).node;
    var b := AddEntry(cfgB, n, formB, entryB, idB).node;
    SnapshotDelivery(a, formA, b);
    SnapshotDelivery(b, formB, a);
    IntToStringInjective(idA, idB);
    assert IntToString(idA) in a.board && IntToString(idA) !in b.board;
  }

  // ------------------------------------------------------------- runs

  /** A request a node serves. */
  datatype Event =
    | Receive(form: Form)
    | Add(form: Form, entry: string, id: int)
    | Modify(param: string, form: Form, entry: string)

  predicate ValidEvent(e: Event) {
    e.Add? ==> 0 <= e.id <= 9999
  }

  function Handle(cfg: Config, n: Node, e: Event): Outcome
    requires ValidEvent(e)
  {
    match e
    case Receive(form) => UpdateBlackboardContent(n, form)
    case Add(form, entry, id) => AddEntry(cfg, n, form, entry, id)
    case Modify(param, form, entry) => ModifyEntry(cfg, n, param, form, entry)
  }

  function Run(cfg: Config, n: Node, es: seq<Event>): Node
    requires forall i :: 0 <= i < |es| ==> ValidEvent(es[i])
    decreases |es|
  {
    if |es| == 0 then n else Run(cfg, Handle(cfg, n, es[0]).node, es[1..])
  }

  /**
   * Over any run of requests, from any state without control keys on the
   * board, the clock never goes back and no control key is ever stored;
   * in particular from the initial node.
   */
  lemma {:induction false} RunKeepsInvariants(cfg: Config, n: Node, es: seq<Event>)
    requires forall i :: 0 <= i < |es| ==> ValidEvent(es[i])
    requires NoControlKeys(n.board)
    ensures Run(cfg, n, es).clock >= n.clock
    ensures NoControlKeys(Run(cfg, n, es).board)
    decreases |es|
  {
    if |es| > 0 {
      var n1 := Handle(cfg, n, es[0]).node;
      assert forall i :: 0 <= i < |es[1..]| ==> es[1..][i] == es[i + 1];
      RunKeepsInvariants(cfg, n1, es[1..]);
    }
  }

  /**
   * Every run that starts from a freshly started node keeps a non-negative
   * clock and never stores a control key.
   */
  lemma RunFromInitialNode(cfg: Config, es: seq<Event>)
    requires forall i :: 0 <= i < |es| ==> ValidEvent(es[i])
    ensures Run(cfg, InitialNode(), es).clock >= 0
    ensures NoControlKeys(Run(cfg, InitialNode(), es).board)
  {
    RunKeepsInvariants(cfg, InitialNode(), es);
  }
}
