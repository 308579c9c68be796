/** How two ZRTP parties settle who is the initiator in DH mode
    (uvgrtp-2.0.0/src/zrtp.cc; RFC 6189, sections 4.2 and 4.4), over a network that
    loses, repeats and reorders messages. */
module ZrtpRoles {
  import opened Arithmetic
  import opened Bits

  // ---------------------------------------------------------------------
  // Commit contention
  // ---------------------------------------------------------------------

  /** The number with these bytes, least significant first. */
  function LittleEndian(bytes: seq<byte>): nat {
    if bytes == [] then 0
    else LittleEndian(bytes[..|bytes| - 1]) + bytes[|bytes| - 1] * Pow256(|bytes| - 1)
  }

  function Pow256(n: nat): (p: nat)
    ensures p > 0
  {
    if n == 0 then 1 else 256 * Pow256(n - 1)
  }

  lemma TopByte(low: nat, y: nat, x: nat, p: nat)
    requires low < p && y < x
    ensures low + y * p < x * p
  {
    MulMono(y + 1, x, p);
    assert (y + 1) * p == y * p + p;
  }

  lemma {:induction false} LittleEndianBound(bytes: seq<byte>)
    ensures LittleEndian(bytes) < Pow256(|bytes|)
    decreases |bytes|
  {
    if bytes != [] {
      var n := |bytes| - 1;
      LittleEndianBound(bytes[..n]);
      TopByte(LittleEndian(bytes[..n]), bytes[n], 256, Pow256(n));
    }
  }

  /** The highest byte that differs decides. */
  lemma HighestDecides(a: seq<byte>, b: seq<byte>)
    requires |a| == |b| > 0 && a[|a| - 1] > b[|a| - 1]
    ensures LittleEndian(a) > LittleEndian(b)
  {
    var n := |a| - 1;
    LittleEndianBound(a[..n]);
    LittleEndianBound(b[..n]);
    TopByte(LittleEndian(b[..n]), b[n], a[n], Pow256(n));
  }

  lemma {:induction false} HigherDecides(a: seq<byte>, b: seq<byte>, i: nat)
    requires |a| == |b| && i < |a| && a[i] > b[i]
    requires forall k :: i < k < |a| ==> a[k] == b[k]
    ensures LittleEndian(a) > LittleEndian(b)
    decreases |a|
  {
    if i == |a| - 1 {
      HighestDecides(a, b);
    } else {
      var n := |a| - 1;
      HigherDecides(a[..n], b[..n], i);
    }
  }

  /** are_we_initiator: the loop over the first `bits + 1` bytes from the last one
      down compares little-endian numbers, and a tie counts as ours. */
  method AreWeInitiator(ours: array<byte>, theirs: array<byte>, mult: bool) returns (r: bool)
    requires ours.Length == theirs.Length == 32
    ensures var n := if mult then 16 else 32;
            r == Larger(ours[..n], theirs[..n])
  {
    var bits := if mult then 15 else 31;
    ghost var n := bits + 1;
    var i: int := bits;
    while i >= 0
      invariant -1 <= i <= bits
      invariant forall k :: i < k < n ==> ours[k] == theirs[k]
    {
      if ours[i] > theirs[i] {
        HigherDecides(ours[..n], theirs[..n], i);
        return true;
      } else if ours[i] < theirs[i] {
        HigherDecides(theirs[..n], ours[..n], i);
        return false;
      }
      i := i - 1;
    }
    assert ours[..n] == theirs[..n];
    return true;
  }

  predicate Larger(ours: seq<byte>, theirs: seq<byte>) {
    LittleEndian(ours) >= LittleEndian(theirs)
  }

  // ---------------------------------------------------------------------
  // One party
  // ---------------------------------------------------------------------

  datatype Kind = Commit | DhPart1 | DhPart2 | Confirm1 | Confirm2 | Conf2Ack | Other

  datatype Role = Unset | Initiator | Responder

  /** Where in the source a party is: draining the socket or sending Commit in
      init_session, in dh_part1 or dh_part2, or sending Confirm1 or Confirm2. */
  datatype Phase = Probing | Committing | SendingDh1 | SendingDh2 | Confirming1 | Confirming2 | Finished | Failed

  /** `sent`: the kinds of message sent so far; `tries`: completed turns of the
      present loop; `awaiting`: the turn has sent its message. */
  datatype Party = Party(phase: Phase, role: Role, tries: nat, awaiting: bool, sent: set<Kind>)

  /** What a receive returns: a message, whether it parses, and whether the MACs
      that it completes are right; or nothing in time. */
  datatype Incoming = Nothing | Got(kind: Kind, parsed: bool, valid: bool)

  const TURNS := 10
  const START := Party(Probing, Unset, 0, false, {})

  predicate Over(p: Party) {
    p.phase == Finished || p.phase == Failed
  }

  /** The message a phase keeps sending. */
  function Outgoing(phase: Phase): Kind {
    match phase
    case Committing => Commit
    case SendingDh1 => DhPart1
    case SendingDh2 => DhPart2
    case Confirming1 => Confirm1
    case Confirming2 => Confirm2
    case _ => Other
  }

  function Enter(p: Party, phase: Phase): Party {
    p.(phase := phase, tries := 0, awaiting := false)
  }

  /** The send of a turn, or giving up after the last one. */
  function Send(p: Party): Party
    requires !Over(p) && p.phase != Probing && !p.awaiting
  {
    if p.tries >= TURNS then Enter(p, Failed)
    else p.(sent := p.sent + {Outgoing(p.phase)}, awaiting := true)
  }

  /** dh_part2 starts by parsing the message that ended init_session. */
  function StartDh2(p: Party, m: Incoming): Party
    requires m.Got?
  {
    Enter(p, if m.parsed then SendingDh2 else Failed)
  }

  /** The receive of a turn. `wins`: our hvi is the larger. */
  function Receive(p: Party, wins: bool, m: Incoming): Party
    requires !Over(p) && (p.phase == Probing || p.awaiting)
  {
    var again := p.(tries := p.tries + 1, awaiting := false);
    match p.phase
    case Probing =>
      if m.Nothing? then Enter(p, Committing).(role := Initiator)
      else if m.kind == Commit then Enter(p, SendingDh1).(role := Responder)
      else p
    case Committing =>
      if m.Got? && m.kind == Commit && !wins then Enter(p, SendingDh1).(role := Responder)
      else if m.Got? && (m.kind == DhPart1 || m.kind == Confirm1) then StartDh2(p, m)
      else again
    case SendingDh1 =>
      if m.Got? && m.kind == DhPart2 && m.parsed then Enter(p, Confirming1) else again
    case SendingDh2 =>
      if m.Got? && m.kind == Confirm1 then Enter(p, if m.parsed && m.valid then Confirming2 else Failed) else again
    case Confirming1 =>
      if m.Got? && m.kind == Confirm2 && m.parsed then
        if m.valid then Enter(p, Finished).(sent := p.sent + {Conf2Ack}) else Enter(p, Failed)
      else again
    case Confirming2 =>
      if m.Got? && m.kind == Conf2Ack then Enter(p, Finished) else again
  }

  // ---------------------------------------------------------------------
  // Two parties
  // ---------------------------------------------------------------------

  datatype Pair = Pair(a: Party, b: Party)

  /** The hash commitments of the two parties. */
  datatype Hvis = Hvis(a: seq<byte>, b: seq<byte>)

  function Swap(s: Pair): Pair {
    Pair(s.b, s.a)
  }

  function SwapHvis(h: Hvis): Hvis {
    Hvis(h.b, h.a)
  }

  /** Party a sends, or receives nothing or anything its peer has ever sent. */
  ghost predicate MovesA(h: Hvis, s: Pair, t: Pair) {
    && !Over(s.a) && t.b == s.b
    && if s.a.phase != Probing && !s.a.awaiting then t.a == Send(s.a)
       else exists m: Incoming :: (m.Got? ==> m.kind in s.b.sent || m.kind == Other)
                                  && t.a == Receive(s.a, Larger(h.a, h.b), m)
  }

  ghost predicate Moves(h: Hvis, s: Pair, t: Pair) {
    MovesA(h, s, t) || MovesA(SwapHvis(h), Swap(s), Swap(t))
  }

  ghost predicate Run(h: Hvis, states: seq<Pair>) {
    && states != [] && states[0] == Pair(START, START)
    && forall i :: 0 <= i < |states| - 1 ==> Moves(h, states[i], states[i + 1])
  }

  // ---------------------------------------------------------------------
  // The invariant
  // ---------------------------------------------------------------------

  /** What a party's own history says about it. `wins`: its hvi is the larger. */
  ghost predicate Consistent(p: Party, wins: bool) {
    && Other !in p.sent
    && (p.phase == Probing ==> p.role == Unset && p.sent == {})
    && (p.phase == Committing ==> p.role == Initiator && p.sent <= {Commit})
    && (p.phase in {SendingDh1, Confirming1} ==> p.role == Responder)
    && (p.phase in {SendingDh2, Confirming2} ==> p.role == Initiator)
    && (p.phase != Probing ==> p.role != Unset)
    && (p.role == Responder ==> p.sent <= {Commit, DhPart1, Confirm1, Conf2Ack})
    && (p.role != Responder ==> p.sent <= {Commit, DhPart2, Confirm2})
    && (p.role == Responder && Commit in p.sent ==> !wins)
    && (Conf2Ack in p.sent <==> p.role == Responder && p.phase == Finished)
    && (p.phase == SendingDh2 && (p.awaiting || p.tries > 0) ==> DhPart2 in p.sent)
    && (p.phase == Confirming2 || Confirm2 in p.sent ==> DhPart2 in p.sent)
  }

  /** A party that acts as initiator, or failed after it did. */
  predicate Leads(p: Party) {
    p.role == Initiator && (p.phase in {SendingDh2, Confirming2, Finished} || DhPart2 in p.sent)
  }

  /** What a party's state says about its peer. */
  ghost predicate Knows(p: Party, q: Party) {
    && (p.role == Responder ==> Commit in q.sent)
    && (Leads(p) ==> q.role == Responder)
    && (p.phase == Finished && p.role == Initiator ==> Conf2Ack in q.sent)
    && (p.phase == Finished && p.role == Responder ==> Confirm2 in q.sent)
  }

  ghost predicate Inv(h: Hvis, s: Pair) {
    && Consistent(s.a, Larger(h.a, h.b)) && Consistent(s.b, Larger(h.b, h.a))
    && Knows(s.a, s.b) && Knows(s.b, s.a)
  }

  lemma SendKeeps(p: Party, q: Party, wins: bool)
    requires !Over(p) && p.phase != Probing && !p.awaiting
    requires Consistent(p, wins) && Knows(p, q) && Knows(q, p)
    ensures Consistent(Send(p), wins) && Knows(Send(p), q) && Knows(q, Send(p))
  {
  }

  lemma ReceiveKeeps(p: Party, q: Party, wins: bool, winsQ: bool, m: Incoming)
    requires !Over(p) && (p.phase == Probing || p.awaiting)
    requires Consistent(p, wins) && Consistent(q, winsQ) && Knows(p, q) && Knows(q, p)
    requires m.Got? ==> m.kind in q.sent || m.kind == Other
    ensures var r := Receive(p, wins, m); Consistent(r, wins) && Knows(r, q) && Knows(q, r)
  {
  }

  lemma MoveKeeps(h: Hvis, s: Pair, t: Pair)
    requires Inv(h, s) && MovesA(h, s, t)
    ensures Inv(h, t)
  {
    var wins, winsQ := Larger(h.a, h.b), Larger(h.b, h.a);
    if s.a.phase != Probing && !s.a.awaiting {
      SendKeeps(s.a, s.b, wins);
    } else {
      var m: Incoming :| (m.Got? ==> m.kind in s.b.sent || m.kind == Other) && t.a == Receive(s.a, wins, m);
      ReceiveKeeps(s.a, s.b, wins, winsQ, m);
    }
  }

  /** Every step of a run keeps the invariant. */
  lemma {:induction false} RunKeeps(h: Hvis, states: seq<Pair>, i: nat)
    requires Run(h, states) && i < |states|
    ensures Inv(h, states[i])
    decreases i
  {
    if i > 0 {
      RunKeeps(h, states, i - 1);
      var s, t := states[i - 1], states[i];
      assert Moves(h, states[i - 1], states[i - 1 + 1]);
      if MovesA(h, s, t) {
        MoveKeeps(h, s, t);
      } else {
        MoveKeeps(SwapHvis(h), Swap(s), Swap(t));
      }
    }
  }

  /** What holds of a party and its peer: they are never both responders, nor both
      past init_session as initiators; who acts as initiator has a responder for
      peer; who finished as initiator has a peer that finished as responder; and
      who finished as responder has a peer that acts as initiator. */
  ghost predicate Agree(p: Party, q: Party) {
    && !(p.role == Responder && q.role == Responder)
    && !(Leads(p) && Leads(q))
    && (Leads(p) ==> q.role == Responder)
    && (p.phase == Finished && p.role == Initiator ==> q.phase == Finished && q.role == Responder)
    && (p.phase == Finished && p.role == Responder ==> Leads(q))
  }

  /** In every reachable state of every run, for any hash commitments. */
  lemma RolesAgree(h: Hvis, states: seq<Pair>, i: nat)
    requires Run(h, states) && i < |states|
    ensures Agree(states[i].a, states[i].b) && Agree(states[i].b, states[i].a)
  {
    RunKeeps(h, states, i);
  }
}
