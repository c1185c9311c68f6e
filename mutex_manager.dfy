/**
  The per-server half of Lamport's 1978 mutual-exclusion algorithm: a logical
  clock `h`, a ledger `t` holding the last known message of every server, and
  the grant flag `agreedSC`. The handlers merge the clock, overwrite one ledger
  slot, and re-evaluate whether this server's own request is the oldest one
  in (timestamp, identifier) order.
 */
module LamportMutex {

  datatype Kind = Request | Acknowledge | Release

  /** A protocol message: its kind, the server that sent it, and its logical timestamp. */
  datatype Message = Message(kind: Kind, senderId: int, h: int)

  /** The manager's state as a value: its own identifier, clock, grant flag and ledger. */
  datatype ManagerState = ManagerState(selfId: int, h: int, agreedSC: bool, ledger: seq<Message>)
  {
    /** The own identifier indexes the ledger. */
    predicate Valid() { 0 <= selfId < |ledger| }

    /** `id` indexes the ledger, so a message from `id` can be recorded. */
    predicate Knows(id: int) { 0 <= id < |ledger| }
  }

  function Max(a: int, b: int): int { if a < b then b else a }

  // ---------------------------------------------------------------------------
  // The ordering of requests

  /** A request stamped `h1` by server `id1` comes before one stamped `h2` by server `id2`. */
  predicate Before(h1: int, id1: int, h2: int, id2: int)
    ensures id1 != id2 ==> (Before(h1, id1, h2, id2) <==> !(h1 > h2 || (h1 == h2 && id1 > id2)))
  {
    h1 < h2 || (h1 == h2 && id1 < id2)
  }

  /** `Before` is a strict total order on (timestamp, identifier) pairs. */
  lemma BeforeIsStrictTotalOrder(h1: int, id1: int, h2: int, id2: int, h3: int, id3: int)
    ensures !Before(h1, id1, h1, id1)
    ensures Before(h1, id1, h2, id2) ==> !Before(h2, id2, h1, id1)
    ensures Before(h1, id1, h2, id2) && Before(h2, id2, h3, id3) ==> Before(h1, id1, h3, id3)
    ensures (h1, id1) != (h2, id2) ==> Before(h1, id1, h2, id2) || Before(h2, id2, h1, id1)
  {
  }

  /** Every ledger entry sent by another server comes after this server's own entry. */
  predicate Oldest(ledger: seq<Message>, selfId: int)
    requires 0 <= selfId < |ledger|
    ensures Oldest(ledger, selfId) <==>
      !(exists k :: 0 <= k < |ledger| && ledger[k].senderId != selfId
          && (ledger[selfId].h > ledger[k].h || (ledger[selfId].h == ledger[k].h && selfId > ledger[k].senderId)))
  {
    forall k :: 0 <= k < |ledger| && ledger[k].senderId != selfId ==>
      Before(ledger[selfId].h, selfId, ledger[k].h, ledger[k].senderId)
  }

  /**
    Two servers `a` and `b` whose ledgers hold the same two requests, each one's
    own and the other's, cannot both find their own request the oldest.
   */
  lemma TieBreakExclusive(sa: ManagerState, sb: ManagerState)
    requires sa.Valid() && sb.Valid() && sa.selfId != sb.selfId
    requires sa.Knows(sb.selfId) && sb.Knows(sa.selfId)
    requires sa.ledger[sa.selfId] == sb.ledger[sa.selfId]
    requires sa.ledger[sb.selfId] == sb.ledger[sb.selfId]
    requires sa.ledger[sb.selfId].senderId == sb.selfId && sb.ledger[sa.selfId].senderId == sa.selfId
    ensures !(Oldest(sa.ledger, sa.selfId) && Oldest(sb.ledger, sb.selfId))
  {
  }

  // ---------------------------------------------------------------------------
  // The handlers as functions on the state

  /** `syncStamp`: the clock becomes the least value above both itself and the incoming stamp. */
  function Sync(s: ManagerState, incoming: int): (r: ManagerState)
    ensures r.h > s.h && r.h > incoming && (r.h == s.h + 1 || r.h == incoming + 1)
    ensures r == s.(h := r.h)
  {
    s.(h := Max(incoming, s.h) + 1)
  }

  /**
    `verifySC`: while the own entry is a request, the grant is set once that request
    precedes every entry sent by another server; the grant is never withdrawn.
   */
  function Verify(s: ManagerState): (r: ManagerState)
    requires s.Valid()
    ensures r == s.(agreedSC := r.agreedSC)
    ensures r.agreedSC <==> s.agreedSC || (s.ledger[s.selfId].kind == Request && Oldest(s.ledger, s.selfId))
  {
    if s.ledger[s.selfId].kind != Request then s
    else if Oldest(s.ledger, s.selfId) then s.(agreedSC := true)
    else s
  }

  /** Re-evaluating the grant a second time changes nothing. */
  lemma VerifyIdempotent(s: ManagerState)
    requires s.Valid()
    ensures Verify(Verify(s)) == Verify(s)
  {
  }

  /** `ack`: merge the clock; record the message unless the sender's slot already holds a request. */
  function OnAck(s: ManagerState, msg: Message): (r: ManagerState)
    requires s.Valid() && s.Knows(msg.senderId)
    ensures r.selfId == s.selfId && |r.ledger| == |s.ledger|
    ensures forall i :: 0 <= i < |s.ledger| && i != msg.senderId ==> r.ledger[i] == s.ledger[i]
    ensures s.ledger[msg.senderId].kind == Request ==> r.ledger[msg.senderId] == s.ledger[msg.senderId]
    ensures s.ledger[msg.senderId].kind != Request ==> r.ledger[msg.senderId] == msg
    ensures r.h > s.h && r.h > msg.h && (r.h == s.h + 1 || r.h == msg.h + 1)
    ensures s.agreedSC ==> r.agreedSC
    ensures r.agreedSC <==> s.agreedSC || (r.ledger[s.selfId].kind == Request && Oldest(r.ledger, s.selfId))
  {
    var s1 := Sync(s, msg.h);
    var s2 := if s1.ledger[msg.senderId].kind != Request then s1.(ledger := s1.ledger[msg.senderId := msg]) else s1;
    Verify(s2)
  }

  /**
    `req`: merge the clock and record the request unconditionally; when the own
    entry is then not a request, handle the message a second time as `ack` does.
   */
  function OnReq(s: ManagerState, msg: Message): (r: ManagerState)
    requires s.Valid() && s.Knows(msg.senderId)
    ensures r.selfId == s.selfId && |r.ledger| == |s.ledger|
    ensures forall i :: 0 <= i < |s.ledger| && i != msg.senderId ==> r.ledger[i] == s.ledger[i]
    ensures r.ledger[msg.senderId] == msg
    ensures r.h > s.h && r.h > msg.h
    ensures s.agreedSC ==> r.agreedSC
    ensures r.agreedSC <==> s.agreedSC || (r.ledger[s.selfId].kind == Request && Oldest(r.ledger, s.selfId))
  {
    var s1 := Sync(s, msg.h).(ledger := s.ledger[msg.senderId := msg]);
    var s2 := if s1.ledger[s1.selfId].kind != Request then OnAck(s1, msg) else s1;
    Verify(s2)
  }

  /**
    The clock after `req`: one past the merge when this server is itself requesting,
    two past it otherwise, because the message is then handled a second time.
   */
  lemma ReqClock(s: ManagerState, msg: Message)
    requires s.Valid() && s.Knows(msg.senderId)
    ensures s.ledger[msg.senderId := msg][s.selfId].kind == Request ==> OnReq(s, msg).h == Max(msg.h, s.h) + 1
    ensures s.ledger[msg.senderId := msg][s.selfId].kind != Request ==> OnReq(s, msg).h == Max(msg.h, s.h) + 2
  {
  }

  /** `rel`: merge the clock and record the release unconditionally. */
  function OnRel(s: ManagerState, msg: Message): (r: ManagerState)
    requires s.Valid() && s.Knows(msg.senderId)
    ensures r.selfId == s.selfId && |r.ledger| == |s.ledger|
    ensures forall i :: 0 <= i < |s.ledger| && i != msg.senderId ==> r.ledger[i] == s.ledger[i]
    ensures r.ledger[msg.senderId] == msg
    ensures r.h > s.h && r.h > msg.h && (r.h == s.h + 1 || r.h == msg.h + 1)
    ensures s.agreedSC ==> r.agreedSC
    ensures r.agreedSC <==> s.agreedSC || (r.ledger[s.selfId].kind == Request && Oldest(r.ledger, s.selfId))
  {
    var s1 := Sync(s, msg.h).(ledger := s.ledger[msg.senderId := msg]);
    Verify(s1)
  }

  // ---------------------------------------------------------------------------
  // Sequences of handled messages

  /** One handler invocation. */
  datatype Event = HandleReq(msg: Message) | HandleAck(msg: Message) | HandleRel(msg: Message)

  function Step(s: ManagerState, e: Event): (r: ManagerState)
    requires s.Valid() && s.Knows(e.msg.senderId)
    ensures r.selfId == s.selfId && |r.ledger| == |s.ledger|
    ensures r.h > s.h
    ensures s.agreedSC ==> r.agreedSC
  {
    match e
    case HandleReq(msg) => OnReq(s, msg)
    case HandleAck(msg) => OnAck(s, msg)
    case HandleRel(msg) => OnRel(s, msg)
  }

  /** Every event of `es` comes from a server the ledger knows. */
  predicate AllKnown(s: ManagerState, es: seq<Event>)
  {
    forall k :: 0 <= k < |es| ==> s.Knows(es[k].msg.senderId)
  }

  /** The handlers run one after the other on the events of `es`. */
  function Run(s: ManagerState, es: seq<Event>): (r: ManagerState)
    requires s.Valid() && AllKnown(s, es)
    ensures r.selfId == s.selfId && |r.ledger| == |s.ledger|
    ensures r.h >= s.h + |es|
    ensures s.agreedSC ==> r.agreedSC
    decreases |es|
  {
    if es == [] then s
    else Run(Step(s, es[0]), es[1..])
  }

  /**
    A request on record for server `p` survives any run in which `p` sends only
    acknowledgements: an acknowledgement never overwrites a request.
   */
  lemma {:induction false} RecordedRequestPersists(s: ManagerState, es: seq<Event>, p: int)
    requires s.Valid() && AllKnown(s, es)
    requires s.Knows(p) && s.ledger[p].kind == Request
    requires forall k :: 0 <= k < |es| && es[k].msg.senderId == p ==> es[k].HandleAck?
    ensures Run(s, es).ledger[p] == s.ledger[p]
    decreases |es|
  {
    if es != [] {
      var s' := Step(s, es[0]);
      assert s'.ledger[p] == s.ledger[p];
      assert AllKnown(s', es[1..]) by {
        forall k | 0 <= k < |es[1..]| ensures s'.Knows(es[1..][k].msg.senderId) {
          assert es[1..][k] == es[k + 1];
        }
      }
      forall k | 0 <= k < |es[1..]| && es[1..][k].msg.senderId == p ensures es[1..][k].HandleAck? {
        assert es[1..][k] == es[k + 1];
      }
      RecordedRequestPersists(s', es[1..], p);
    }
  }

  // ---------------------------------------------------------------------------
  // The manager object

  /**
    One manager, updated in place. The Go source declares every handler on a
    value receiver (`func (m MutexManager)`), so each of its updates lands on a
    copy that is then discarded; this class models the intended behaviour, in
    which the handlers change the one manager they are called on.
   */
  class MutexManager {
    const selfId: int
    /** The logical clock. */
    var h: int
    /** The grant: this server may enter the critical section. */
    var agreedSC: bool
    /** The ledger: the last known message of every server, indexed by server identifier. */
    const t: array<Message>

    ghost predicate Valid()
      reads this
    {
      0 <= selfId < t.Length
    }

    ghost function View(): ManagerState
      reads this, t
    {
      ManagerState(selfId, h, agreedSC, t[..])
    }

    /** A manager for server `selfId` whose ledger starts as `ledger`; its size is the number of servers. */
    constructor (selfId: int, ledger: seq<Message>)
      requires 0 <= selfId < |ledger|
      ensures Valid() && View() == ManagerState(selfId, 0, false, ledger)
      ensures fresh(t)
    {
      this.selfId := selfId;
      h := 0;
      agreedSC := false;
      t := new Message[|ledger|](i requires 0 <= i < |ledger| => ledger[i]);
      new;
      assert t[..] == ledger;
    }

    method SyncStamp(incomingStamp: int)
      modifies this`h
      ensures View() == Sync(old(View()), incomingStamp)
    {
      h := Max(incomingStamp, h) + 1;
    }

    method Req(msg: Message)
      requires Valid() && 0 <= msg.senderId < t.Length
      modifies this, t
      ensures View() == OnReq(old(View()), msg)
    {
      SyncStamp(msg.h);
      t[msg.senderId] := msg;
      if t[selfId].kind != Request {
        Ack(msg);
      }
      VerifySC();
    }

    method Ack(msg: Message)
      requires Valid() && 0 <= msg.senderId < t.Length
      modifies this, t
      ensures View() == OnAck(old(View()), msg)
    {
      SyncStamp(msg.h);
      if t[msg.senderId].kind != Request {
        t[msg.senderId] := msg;
      }
      VerifySC();
    }

    method Rel(msg: Message)
      requires Valid() && 0 <= msg.senderId < t.Length
      modifies this, t
      ensures View() == OnRel(old(View()), msg)
    {
      SyncStamp(msg.h);
      t[msg.senderId] := msg;
      VerifySC();
    }

    method VerifySC()
      requires Valid()
      modifies this`agreedSC
      ensures View() == Verify(old(View()))
    {
      if t[selfId].kind != Request {
        return;
      }
      var oldest := true;
      var i := 0;
      while i < t.Length
        invariant 0 <= i <= t.Length
        invariant oldest
        invariant forall k :: 0 <= k < i && t[k].senderId != selfId ==>
          Before(t[selfId].h, selfId, t[k].h, t[k].senderId)
      {
        var msg := t[i];
        if msg.senderId == selfId {
          i := i + 1;
          continue;
        }
        if t[selfId].h > msg.h || (t[selfId].h == msg.h && selfId > msg.senderId) {
          oldest := false;
          break;
        }
        i := i + 1;
      }
      if oldest {
        agreedSC := true;
      }
    }
  }

  // ---------------------------------------------------------------------------
  // The handler as the Go code runs it

  /** `req` as written: the value receiver is a copy, so the caller's manager is left as it was. */
  function ReqOnValueReceiver(s: ManagerState, msg: Message): (r: ManagerState)
    requires s.Valid() && s.Knows(msg.senderId)
    ensures r.h < OnReq(s, msg).h
    ensures |r.ledger| == |s.ledger|
    ensures s.ledger[msg.senderId] != msg ==> r.ledger[msg.senderId] != OnReq(s, msg).ledger[msg.senderId]
  {
    s
  }

  /** A request handled through the value receiver is not recorded, where the in-place handler records it. */
  lemma ValueReceiverDropsRequest()
    ensures var s := ManagerState(0, 0, false, [Message(Release, 0, 0), Message(Release, 1, 0)]);
            var msg := Message(Request, 1, 5);
            ReqOnValueReceiver(s, msg).ledger[1] != msg && OnReq(s, msg).ledger[1] == msg
  {
  }
}
