/**
 * One node of the scalar-clock replicated blackboard: its state, the three
 * request handlers that change that state, the clock helpers, and the
 * message a node broadcasts after a local write.
 *
 * A handler is a pure transition from the node before the request to an
 * Outcome: the node after the request, the sends it would start, and how the
 * handler ended. A Python exception raised midway leaves the mutations made
 * before it in place, so a failing handler still returns the node it leaves.
 */
module Server {
  import opened Wrappers
  import opened Decimal
  import opened Blackboard

  /** Form fields of an HTTP request; a later write to a field overrides an earlier one. */
  type Form = map<string, string>

  datatype Node = Node(board: Board, clock: int)

  /** The fixed identity of a node: its id, its own address, and every peer address. */
  datatype Config = Config(id: int, ip: string, servers: seq<string>)

  /** A POST of `form` to `uri` on the peer at address `to`. */
  datatype Send = Send(to: string, uri: string, form: Form)

  datatype Status =
    | Done
    | ClockMissing     // int(None): the form has no clock field
    | ClockMalformed   // int(s) on text that is not a base-10 integer
    | KeyMissing       // dict.pop on an absent key

  datatype Outcome = Outcome(node: Node, sent: seq<Send>, status: Status)

  const UpdateUri: string := "/update"

  /** Fields of a snapshot message that are not blackboard entries. */
  const ControlKeys: set<string> := {"clock", "entry", "delete"}

  /** The state a node starts in: an empty board and clock 0. */
  function InitialNode(): (r: Node)
    ensures |r.board| == 0 && r.clock == 0
    ensures NoControlKeys(r.board)
  {
    Node(map[], 0)
  }

  /** A board never stores a control key under the transitions below. */
  predicate NoControlKeys(b: Board) {
    b.Keys !! ControlKeys
  }

  /** The clock a form carries, if it carries one that `int()` accepts. */
  function Carried(form: Form): Option<int> {
    if "clock" in form then ParseInt(form["clock"]) else None
  }

  // ---------------------------------------------------------------- clock

  /** `update_clock(v)`: the clock becomes one past `v`; the board is untouched. */
  function UpdateClock(n: Node, v: int): (r: Node)
    ensures r.board == n.board
    ensures r.clock > v && r.clock - 1 == v
  {
    Node(n.board, v + 1)
  }

  /**
   * `get_and_update_with_own_or_other_servers_clock`: one past the carried
   * clock when the form has one, one past the node's own clock otherwise.
   * A clock field that `int()` rejects raises, leaving the node unchanged.
   */
  function GetAndUpdateClock(n: Node, form: Form): (o: Outcome)
    ensures o.sent == [] && o.node.board == n.board
    ensures "clock" !in form ==> o.status == Done && o.node.clock == n.clock + 1
    ensures Carried(form).Some? ==> o.status == Done && o.node.clock == Carried(form).value + 1
    ensures "clock" in form && Carried(form).None? ==> o.status == ClockMalformed && o.node == n
  {
    if "clock" !in form then
      Outcome(UpdateClock(n, n.clock), [], Done)
    else
      match ParseInt(form["clock"])
      case None => Outcome(n, [], ClockMalformed)
      case Some(c) => Outcome(UpdateClock(n, c), [], Done)
  }

  // ------------------------------------------------------------ recipients

  /** `a` is `b` with some elements left out, the rest in their original order. */
  predicate IsSubsequence<T(==)>(a: seq<T>, b: seq<T>)
    decreases |b|
  {
    if |a| == 0 then true
    else if |b| == 0 then false
    else if a[0] == b[0] then IsSubsequence(a[1..], b[1..])
    else IsSubsequence(a, b[1..])
  }

  /**
   * The peers `propagate_to_all_servers` contacts: every address of the
   * server list except the node's own, in list order, duplicates kept.
   */
  function Recipients(servers: seq<string>, self: string): (r: seq<string>)
    ensures self !in r
    ensures forall x :: x in r ==> x in servers
    ensures multiset(r) == multiset(servers)[self := 0]
    ensures IsSubsequence(r, servers)
    ensures |r| == |servers| - multiset(servers)[self]
  {
    if |servers| == 0 then []
    else
      assert servers == [servers[0]] + servers[1..];
      if servers[0] != self then [servers[0]] + Recipients(servers[1..], self)
      else Recipients(servers[1..], self)
  }

  /** One send of `msg` to `uri` for each recipient, in recipient order. */
  function Propagate(cfg: Config, uri: string, msg: Form): (sent: seq<Send>)
    ensures |sent| == |Recipients(cfg.servers, cfg.ip)|
    ensures forall i :: 0 <= i < |sent| ==> sent[i].to == Recipients(cfg.servers, cfg.ip)[i]
    ensures forall s :: s in sent ==> s.to != cfg.ip && s.to in cfg.servers && s.uri == uri && s.form == msg
  {
    var rs := Recipients(cfg.servers, cfg.ip);
    assert forall i :: 0 <= i < |rs| ==> rs[i] in rs;
    seq(|rs|, i requires 0 <= i < |rs| => Send(rs[i], uri, msg))
  }

  // ------------------------------------------------------------- messages

  /**
   * The snapshot message a local write broadcasts: the request's own form,
   * then `clock` set to the node's clock, then every board entry, each later
   * field overriding an earlier one of the same name.
   */
  function Message(form: Form, n: Node): (m: Form)
    ensures m.Keys == form.Keys + {"clock"} + n.board.Keys
    ensures forall k :: k in n.board ==> m[k] == n.board[k]
    ensures "clock" !in n.board ==> m["clock"] == IntToString(n.clock)
    ensures forall k :: k in form && k != "clock" && k !in n.board ==> m[k] == form[k]
  {
    form["clock" := IntToString(n.clock)] + n.board
  }

  /** The entries a receiver keeps from a form: every field but the control keys, verbatim. */
  function Strip(form: Form): (b: Board)
    ensures b.Keys == form.Keys - ControlKeys
    ensures forall k :: k in b ==> b[k] == form[k]
    ensures NoControlKeys(b)
  {
    map k | k in form && k !in ControlKeys :: form[k]
  }

  // ------------------------------------------------------------- handlers

  /**
   * `update_blackboard_content` (POST /update): install the snapshot iff the
   * carried clock is strictly greater than the node's clock, adopting that
   * clock; otherwise leave the node as it is.
   */
  function UpdateBlackboardContent(n: Node, form: Form): (o: Outcome)
    ensures o.sent == []
    ensures "clock" !in form ==> o.status == ClockMissing && o.node == n
    ensures "clock" in form && Carried(form).None? ==> o.status == ClockMalformed && o.node == n
    ensures Carried(form).Some? ==> o.status == Done
    ensures o.node.clock > n.clock <==> Carried(form).Some? && Carried(form).value > n.clock
    ensures o.node.clock > n.clock ==>
              o.node.clock == Carried(form).value
              && o.node.board.Keys == form.Keys - ControlKeys
              && forall k :: k in o.node.board ==> o.node.board[k] == form[k]
    ensures o.node.clock <= n.clock ==> o.node == n
    ensures NoControlKeys(n.board) ==> NoControlKeys(o.node.board)
  {
    if "clock" !in form then
      Outcome(n, [], ClockMissing)
    else
      match ParseInt(form["clock"])
      case None => Outcome(n, [], ClockMalformed)
      case Some(c) =>
        if c > n.clock then Outcome(Node(SetContent(n.board, Strip(form)), c), [], Done)
        else Outcome(n, [], Done)
  }

  /**
   * `add_entry_with_propagation` (POST /board/propagate): bump the clock,
   * store `entry` under the decimal text of the random id, and broadcast
   * the snapshot to every peer.
   */
  function AddEntry(cfg: Config, n: Node, form: Form, entry: string, id: int): (o: Outcome)
    requires 0 <= id <= 9999
    ensures o.status == Done
    ensures o.node.clock == n.clock + 1
    ensures IntToString(id) in o.node.board && o.node.board[IntToString(id)] == entry
    ensures o.node.board.Keys == n.board.Keys + {IntToString(id)}
    ensures forall k :: k in n.board && k != IntToString(id) ==> o.node.board[k] == n.board[k]
    ensures o.sent == Propagate(cfg, UpdateUri, Message(form, o.node))
    ensures NoControlKeys(n.board) ==> NoControlKeys(o.node.board)
  {
    var key := IntToString(id);
    assert key[0] != 'c' && key[0] != 'e' && key[0] != 'd';
    var node := Node(ModifyContent(n.board, key, entry), n.clock + 1);
    Outcome(node, Propagate(cfg, UpdateUri, Message(form, node)), Done)
  }

  /** The request asks to keep (rewrite) the entry rather than delete it: `delete == '0'`. */
  predicate KeepsEntry(form: Form) {
    "delete" in form && form["delete"] == "0"
  }

  /**
   * `modify_entry_with_propagation` (POST /board/<param>/propagate): bump
   * the clock, remove `param`, put it back with `entry` when the request
   * says `delete=0`, and broadcast the snapshot. An absent `param` raises
   * after the clock bump: the clock stays bumped and nothing is sent.
   */
  function ModifyEntry(cfg: Config, n: Node, param: string, form: Form, entry: string): (o: Outcome)
    ensures o.node.clock == n.clock + 1
    ensures param !in n.board ==> o.status == KeyMissing && o.node.board == n.board && o.sent == []
    ensures param in n.board ==> o.status == Done
    ensures param in n.board && KeepsEntry(form) ==>
              param in o.node.board && o.node.board[param] == entry && o.node.board.Keys == n.board.Keys
    ensures param in n.board && !KeepsEntry(form) ==> o.node.board.Keys == n.board.Keys - {param}
    ensures forall k :: k in o.node.board && k != param ==> k in n.board && o.node.board[k] == n.board[k]
    ensures forall k :: k in n.board && k != param ==> k in o.node.board
    ensures o.status == Done ==> o.sent == Propagate(cfg, UpdateUri, Message(form, o.node))
    ensures NoControlKeys(n.board) ==> NoControlKeys(o.node.board)
  {
    var clock := n.clock + 1;
    if param !in n.board then
      Outcome(Node(n.board, clock), [], KeyMissing)
    else
      var removed := DeleteContent(n.board, param);
      var board := if KeepsEntry(form) then ModifyContent(removed, param, entry) else removed;
      var node := Node(board, clock);
      Outcome(node, Propagate(cfg, UpdateUri, Message(form, node)), Done)
  }
}
