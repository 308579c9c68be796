/** Two ZRTP sessions that send and receive in turn, over a network that loses
    messages: exactly when both end well (uvgrtp-2.0.0/src/zrtp.cc:408-614). */
module ZrtpLockstep {
  import opened ZrtpLoops
  import opened ZrtpNetwork
  import opened ZrtpRoles
  import opened ZrtpSession

  // ---------------------------------------------------------------------
  // Rounds
  // ---------------------------------------------------------------------

  /** Both parties, and whether the Conf2ACK of one that has just finished is still to
      arrive. */
  datatype Net = Net(a: Party, b: Party, ackA: bool, ackB: bool)

  /** Which messages of a round arrive. */
  datatype Delivery = Delivery(toA: bool, toB: bool)

  /** Those of every round. */
  type Deliveries = nat -> Delivery

  function SwapNet(s: Net): Net {
    Net(s.b, s.a, s.ackB, s.ackA)
  }

  /** What a party's peer can hear in a round; it parses, and its MACs are right. */
  function Says(p: Party, ack: bool): Incoming {
    if ack then Got(Conf2Ack, true, true)
    else if Over(p) || p.phase == Probing || p.awaiting || p.tries >= TURNS then Nothing
    else Got(Outgoing(p.phase), true, true)
  }

  /** A turn of a party that hears `m`, or its end. */
  function Turned(p: Party, wins: bool, m: Incoming): (q: Party)
    requires p.phase != Probing && !p.awaiting
    ensures q.phase != Probing && !q.awaiting
  {
    if Over(p) || Over(Send(p)) then (if Over(p) then p else Send(p)) else Receive(Send(p), wins, m)
  }

  function Heard(p: Party, ack: bool, arrives: bool): Incoming {
    if arrives then Says(p, ack) else Nothing
  }

  predicate InTurn(s: Net) {
    s.a.phase != Probing && !s.a.awaiting && s.b.phase != Probing && !s.b.awaiting
  }

  /** Both send, and then both receive. */
  function Round(h: Hvis, s: Net, d: Delivery): (t: Net)
    requires InTurn(s)
    ensures InTurn(t)
  {
    var a := Turned(s.a, Larger(h.a, h.b), Heard(s.b, s.ackB, d.toA));
    var b := Turned(s.b, Larger(h.b, h.a), Heard(s.a, s.ackA, d.toB));
    Net(a, b, Conf2Ack in a.sent - s.a.sent, Conf2Ack in b.sent - s.b.sent)
  }

  function After(h: Hvis, s: Net, ds: Deliveries, n: nat): (t: Net)
    requires InTurn(s)
    ensures InTurn(t)
  {
    if n == 0 then s else Round(h, After(h, s, ds, n - 1), ds(n - 1))
  }

  /** A party that has found no message waiting. */
  const LEADER := Party(Committing, Initiator, 0, false, {})

  /** One that has found a Commit. */
  const FOLLOWER := Party(SendingDh1, Responder, 0, false, {})

  /** Both start at once, and contend. */
  const CONTENTION := Net(LEADER, LEADER, false, false)

  predicate BothFinished(s: Net) {
    s.a.phase == Finished && s.b.phase == Finished
  }

  /** Both have ended well, a as initiator and b as responder. */
  predicate Agreed(s: Net) {
    BothFinished(s) && s.a.role == Initiator && s.b.role == Responder
  }

  // ---------------------------------------------------------------------
  // The stages of a handshake that a leads
  // ---------------------------------------------------------------------

  function LeaderPhase(k: nat): Phase {
    if k < 2 then Committing else if k < 4 then SendingDh2 else if k < 6 then Confirming2 else Finished
  }

  function FollowerPhase(k: nat): Phase {
    if k == 0 then Committing else if k < 3 then SendingDh1 else if k < 5 then Confirming1 else Finished
  }

  /** Stage `k`: the leader and the follower are in the `x`-th and `y`-th turn of their
      loops. */
  predicate AtStage(s: Net, k: nat, x: nat, y: nat) {
    && InTurn(s)
    && s.a.phase == LeaderPhase(k) && s.a.role == Initiator && s.a.tries == x
    && s.b.phase == FollowerPhase(k) && s.b.role == (if k == 0 then Initiator else Responder) && s.b.tries == y
    && s.ackB == (k == 5) && !s.ackA
    && Conf2Ack !in s.a.sent && (Conf2Ack in s.b.sent <==> k >= 5)
  }

  /** The message that ends stage `k` goes to b in even stages and to a in odd ones. */
  predicate KeyArrives(d: Delivery, k: nat) {
    if k % 2 == 0 then d.toB else d.toA
  }

  /** A round of the first five stages. */
  lemma StageTurns(h: Hvis, s: Net, d: Delivery, k: nat, x: nat, y: nat)
    requires k < 5 && AtStage(s, k, x, y) && x < TURNS && y < TURNS
    requires k == 0 ==> Larger(h.a, h.b) && !Larger(h.b, h.a)
    ensures AtStage(Round(h, s, d), if KeyArrives(d, k) then k + 1 else k,
                    if KeyArrives(d, k) && k % 2 == 1 then 0 else x + 1,
                    if KeyArrives(d, k) && k % 2 == 0 then 0 else y + 1)
  {
  }

  /** The last stage: the Conf2ACK is sent once, as the follower finishes. */
  lemma LastTurns(h: Hvis, s: Net, d: Delivery, x: nat, y: nat)
    requires AtStage(s, 5, x, y)
    ensures if x < TURNS && d.toA then Agreed(Round(h, s, d)) else Doomed(Round(h, s, d))
  {
  }

  /** They will not both finish: one has failed, or the leader waits for a Conf2ACK
      that is not coming. */
  predicate Doomed(s: Net) {
    InTurn(s) && (s.a.phase == Failed || s.b.phase == Failed
                  || (s.a.phase == Confirming2 && s.b.phase == Finished && !s.ackB))
  }

  lemma DoomedStays(h: Hvis, s: Net, d: Delivery)
    requires Doomed(s)
    ensures Doomed(Round(h, s, d)) && !BothFinished(s)
  {
  }

  /** A party without a turn left fails. */
  lemma NoTurnLeft(h: Hvis, s: Net, d: Delivery, k: nat, x: nat, y: nat)
    requires AtStage(s, k, x, y) && k < 6 && (x >= TURNS || (k < 5 && y >= TURNS))
    ensures Doomed(Round(h, s, d))
  {
  }

  // ---------------------------------------------------------------------
  // A stage to its end
  // ---------------------------------------------------------------------

  /** The first of `n` rounds from number `i` on in which a message that ends stage `k`
      arrives, or `i + n`. */
  function Next(ds: Deliveries, k: nat, i: nat, n: nat): (m: nat)
    ensures i <= m <= i + n
    ensures forall j: nat :: i <= j < m ==> !KeyArrives(ds(j), k)
    ensures m < i + n ==> KeyArrives(ds(m), k)
    decreases n
  {
    if n == 0 || KeyArrives(ds(i), k) then i else Next(ds, k, i + 1, n - 1)
  }

  /** Stage `k`, in which the party that waits for the message is in its `z`-th turn, and
      the other one in its `w`-th. */
  predicate Waits(s: Net, k: nat, z: nat, w: nat) {
    if k % 2 == 0 then AtStage(s, k, w, z) else AtStage(s, k, z, w)
  }

  lemma AfterNext(h: Hvis, s: Net, ds: Deliveries, i: nat)
    requires InTurn(s)
    ensures After(h, s, ds, i + 1) == Round(h, After(h, s, ds, i), ds(i))
  {
  }

  /** A round of a stage. */
  lemma WaitsTurn(h: Hvis, s: Net, d: Delivery, k: nat, z: nat, w: nat)
    requires k < 5 && Waits(s, k, z, w) && w <= z
    requires k == 0 ==> Larger(h.a, h.b) && !Larger(h.b, h.a)
    ensures InTurn(s)
    ensures z >= TURNS ==> Doomed(Round(h, s, d))
    ensures z < TURNS ==>
              if KeyArrives(d, k) then Waits(Round(h, s, d), k + 1, w + 1, 0)
              else Waits(Round(h, s, d), k, z + 1, w + 1)
  {
    hide Round, Doomed, Larger, KeyArrives;
    var x, y := if k % 2 == 0 then w else z, if k % 2 == 0 then z else w;
    if z < TURNS {
      StageTurns(h, s, d, k, x, y);
    } else {
      NoTurnLeft(h, s, d, k, x, y);
    }
  }

  /** A stage ends in time, or the party that waits fails. */
  lemma {:induction false} StageEnds(h: Hvis, s: Net, ds: Deliveries, i: nat, k: nat, z: nat, w: nat, n: nat)
    requires InTurn(s) && k < 5 && Waits(After(h, s, ds, i), k, z, w) && w <= z && z + n == TURNS
    requires k == 0 ==> Larger(h.a, h.b) && !Larger(h.b, h.a)
    ensures var m := Next(ds, k, i, n);
            if m < i + n then Waits(After(h, s, ds, m + 1), k + 1, w + (m - i) + 1, 0)
            else Doomed(After(h, s, ds, i + n + 1))
    decreases n
  {
    hide Waits, Round, Doomed, Larger, KeyArrives, InTurn;
    WaitsTurn(h, After(h, s, ds, i), ds(i), k, z, w);
    AfterNext(h, s, ds, i);
    hide After;
    if n > 0 && !KeyArrives(ds(i), k) {
      StageEnds(h, s, ds, i + 1, k, z + 1, w + 1, n - 1);
    }
  }

  /** A window within a larger one. */
  lemma {:induction false} NextWithin(ds: Deliveries, k: nat, i: nat, n: nat, n': nat)
    requires n <= n'
    ensures var m := Next(ds, k, i, n');
            Next(ds, k, i, n) == if m < i + n then m else i + n
    decreases n
  {
    hide KeyArrives;
    if n > 0 && !KeyArrives(ds(i), k) {
      NextWithin(ds, k, i + 1, n - 1, n' - 1);
    }
  }

  lemma StageGoes(h: Hvis, s: Net, ds: Deliveries, i: nat, k: nat, z: nat, w: nat) returns (m: nat, q: nat)
    requires InTurn(s) && k < 5 && Waits(After(h, s, ds, i), k, z, w) && w <= z <= TURNS
    requires k == 0 ==> Larger(h.a, h.b) && !Larger(h.b, h.a)
    ensures m == Next(ds, k, i, TURNS)
    ensures if z + (m - i) < TURNS then Waits(After(h, s, ds, m + 1), k + 1, w + (m - i) + 1, 0)
            else Doomed(After(h, s, ds, q))
  {
    hide Waits, Doomed, After, Larger;
    m, q := Next(ds, k, i, TURNS), i + (TURNS - z) + 1;
    NextWithin(ds, k, i, TURNS - z, TURNS);
    StageEnds(h, s, ds, i, k, z, w, TURNS - z);
  }

  // ---------------------------------------------------------------------
  // From the first DHPart1 on
  // ---------------------------------------------------------------------

  /** What must arrive in time once the follower has begun in round `i`, when the leader
      is in its `w`-th turn: DHPart1, DHPart2, Confirm1 and Confirm2, any two that one
      loop needs within the turns of that loop, and the one Conf2ACK. */
  predicate InTime(ds: Deliveries, i: nat, w: nat) {
    var dh1 := Next(ds, 1, i, TURNS);
    var dh2 := Next(ds, 2, dh1 + 1, TURNS);
    var confirm1 := Next(ds, 3, dh2 + 1, TURNS);
    var confirm2 := Next(ds, 4, confirm1 + 1, TURNS);
    && w + (dh1 - i) < TURNS
    && dh2 - i < TURNS
    && confirm1 - dh1 <= TURNS
    && confirm2 - dh2 <= TURNS
    && confirm2 - confirm1 < TURNS
    && ds(confirm2 + 1).toA
  }

  lemma FollowerBegun(h: Hvis, s: Net, ds: Deliveries, i: nat, w: nat) returns (q: nat)
    requires InTurn(s) && Waits(After(h, s, ds, i), 1, w, 0) && w <= TURNS
    ensures if InTime(ds, i, w) then Agreed(After(h, s, ds, q)) else Doomed(After(h, s, ds, q))
  {
    hide Waits, Doomed, After, Agreed, Next, KeyArrives;
    var dh1, dh2, confirm1, confirm2;
    dh1, q := StageGoes(h, s, ds, i, 1, w, 0);
    if w + (dh1 - i) < TURNS {
      dh2, q := StageGoes(h, s, ds, dh1 + 1, 2, dh1 - i + 1, 0);
      if dh2 - i < TURNS {
        confirm1, q := StageGoes(h, s, ds, dh2 + 1, 3, dh2 - dh1, 0);
        if confirm1 - dh1 <= TURNS {
          confirm2, q := StageGoes(h, s, ds, confirm1 + 1, 4, confirm1 - dh2, 0);
          if confirm2 - dh2 <= TURNS {
            q := Acknowledged(h, s, ds, confirm2 + 1, confirm2 - confirm1);
          }
        }
      }
    }
  }

  lemma Acknowledged(h: Hvis, s: Net, ds: Deliveries, i: nat, z: nat) returns (q: nat)
    requires InTurn(s) && Waits(After(h, s, ds, i), 5, z, 0)
    ensures if z < TURNS && ds(i).toA then Agreed(After(h, s, ds, q)) else Doomed(After(h, s, ds, q))
  {
    hide AtStage, Round, Doomed, Agreed, After, InTurn;
    q := i + 1;
    AfterNext(h, s, ds, i);
    LastTurns(h, After(h, s, ds, i), ds(i), z, 0);
  }

  lemma {:induction false} DoomedLater(h: Hvis, s: Net, ds: Deliveries, q: nat, n: nat)
    requires InTurn(s) && Doomed(After(h, s, ds, q)) && q <= n
    ensures Doomed(After(h, s, ds, n))
    decreases n
  {
    hide Doomed, Round;
    if q < n {
      DoomedLater(h, s, ds, q, n - 1);
      DoomedStays(h, After(h, s, ds, n - 1), ds(n - 1));
    }
  }

  // ---------------------------------------------------------------------
  // Everyone ends
  // ---------------------------------------------------------------------

  const ENOUGH := 3 * (TURNS + 2)

  /** How many rounds a party has left at most. */
  function RoundsLeft(p: Party): nat {
    if Over(p) then 0 else Rank(p.phase) * (TURNS + 2) - (if p.tries <= TURNS then p.tries else TURNS)
  }

  lemma TurnsRunOut(p: Party, wins: bool, m: Incoming)
    requires p.phase != Probing && !p.awaiting && !Over(p)
    ensures RoundsLeft(Turned(p, wins, m)) < RoundsLeft(p)
  {
  }

  lemma {:induction false} RoundsRunOut(h: Hvis, s: Net, ds: Deliveries, n: nat)
    requires InTurn(s)
    ensures var t := After(h, s, ds, n);
            && (Over(t.a) || RoundsLeft(t.a) + n <= RoundsLeft(s.a))
            && (Over(t.b) || RoundsLeft(t.b) + n <= RoundsLeft(s.b))
    decreases n
  {
    hide Turned, RoundsLeft, Over, Heard, Larger;
    if n > 0 {
      RoundsRunOut(h, s, ds, n - 1);
      var t, d := After(h, s, ds, n - 1), ds(n - 1);
      var ma, mb := Heard(t.b, t.ackB, d.toA), Heard(t.a, t.ackA, d.toB);
      StaysOver(t.a, Larger(h.a, h.b), ma);
      StaysOver(t.b, Larger(h.b, h.a), mb);
      if !Over(t.a) {
        TurnsRunOut(t.a, Larger(h.a, h.b), ma);
      }
      if !Over(t.b) {
        TurnsRunOut(t.b, Larger(h.b, h.a), mb);
      }
    }
  }

  lemma StaysOver(p: Party, wins: bool, m: Incoming)
    requires p.phase != Probing && !p.awaiting
    ensures Over(p) ==> Turned(p, wins, m) == p
  {
  }

  /** After enough rounds both are over, whatever arrives. */
  lemma EveryoneEnds(h: Hvis, s: Net, ds: Deliveries)
    requires InTurn(s)
    ensures var t := After(h, s, ds, ENOUGH); Over(t.a) && Over(t.b)
  {
    hide After;
    RoundsRunOut(h, s, ds, ENOUGH);
  }

  /** Who is over stays as it is. */
  lemma {:induction false} OverStays(h: Hvis, s: Net, ds: Deliveries, m: nat, n: nat)
    requires InTurn(s) && m <= n && Over(After(h, s, ds, m).a) && Over(After(h, s, ds, m).b)
    ensures After(h, s, ds, n).a == After(h, s, ds, m).a && After(h, s, ds, n).b == After(h, s, ds, m).b
    decreases n
  {
    hide Turned, Over, Heard, Larger;
    if m < n {
      OverStays(h, s, ds, m, n - 1);
      var t, d := After(h, s, ds, n - 1), ds(n - 1);
      StaysOver(t.a, Larger(h.a, h.b), Heard(t.b, t.ackB, d.toA));
      StaysOver(t.b, Larger(h.b, h.a), Heard(t.a, t.ackA, d.toB));
    }
  }

  /** What becomes of both is settled by then. */
  lemma SettledThen(h: Hvis, s: Net, ds: Deliveries, q: nat)
    requires InTurn(s)
    ensures var t := After(h, s, ds, ENOUGH);
            && Over(t.a) && Over(t.b)
            && (Agreed(After(h, s, ds, q)) ==> Agreed(t))
            && (Doomed(After(h, s, ds, q)) ==> !BothFinished(t))
  {
    EveryoneEnds(h, s, ds);
    hide After;
    if q <= ENOUGH {
      if Agreed(After(h, s, ds, q)) {
        OverStays(h, s, ds, q, ENOUGH);
      } else if Doomed(After(h, s, ds, q)) {
        DoomedLater(h, s, ds, q, ENOUGH);
      }
    } else {
      OverStays(h, s, ds, ENOUGH, q);
    }
  }

  // ---------------------------------------------------------------------
  // The other side leads
  // ---------------------------------------------------------------------

  function SwapDeliveries(ds: Deliveries): Deliveries {
    (i: nat) => Delivery(ds(i).toB, ds(i).toA)
  }

  lemma {:induction false} AfterSwap(h: Hvis, s: Net, ds: Deliveries, n: nat)
    requires InTurn(s)
    ensures After(SwapHvis(h), SwapNet(s), SwapDeliveries(ds), n) == SwapNet(After(h, s, ds, n))
    decreases n
  {
    hide Turned, Heard, Larger;
    if n > 0 {
      AfterSwap(h, s, ds, n - 1);
    }
  }

  // ---------------------------------------------------------------------
  // Handshakes
  // ---------------------------------------------------------------------

  /** What must arrive in time after a contention that a wins: its Commit, and the rest. */
  predicate ContentionInTime(ds: Deliveries) {
    var commit := Next(ds, 0, 0, TURNS);
    InTime(ds, commit + 1, commit + 1)
  }

  /** The end of the contention is not lost. */
  lemma ContentionGoes(h: Hvis, ds: Deliveries) returns (q: nat)
    requires Larger(h.a, h.b) && !Larger(h.b, h.a)
    ensures if ContentionInTime(ds) then Agreed(After(h, CONTENTION, ds, q))
            else Doomed(After(h, CONTENTION, ds, q))
  {
    hide Doomed, After, Agreed, Next, KeyArrives, InTime, Larger;
    var commit;
    assert Waits(After(h, CONTENTION, ds, 0), 0, 0, 0) by {
      StartsAt(h, ds);
    }
    commit, q := StageGoes(h, CONTENTION, ds, 0, 0, 0, 0);
    if commit < TURNS {
      q := FollowerBegun(h, CONTENTION, ds, commit + 1, commit + 1);
    } else {
      TooLate(ds, commit + 1, commit + 1);
    }
  }

  lemma StartsAt(h: Hvis, ds: Deliveries)
    ensures Waits(After(h, CONTENTION, ds, 0), 0, 0, 0)
  {
  }

  lemma TooLate(ds: Deliveries, i: nat, w: nat)
    requires w >= TURNS
    ensures !InTime(ds, i, w)
  {
    hide Next;
  }

  /** Two parties that contend: both end well, the one with the larger commitment as
      initiator, if and only if its Commit and the five messages after it come in time. */
  lemma ContentionEnds(h: Hvis, ds: Deliveries)
    requires LittleEndian(h.a) > LittleEndian(h.b)
    ensures var t := After(h, CONTENTION, ds, ENOUGH);
            && Over(t.a) && Over(t.b)
            && if ContentionInTime(ds) then Agreed(t) else !BothFinished(t)
  {
    hide Doomed, After, Agreed, BothFinished, ContentionInTime, Over;
    var q := ContentionGoes(h, ds);
    SettledThen(h, CONTENTION, ds, q);
  }

  lemma ContentionEndsForB(h: Hvis, ds: Deliveries)
    requires LittleEndian(h.a) < LittleEndian(h.b)
    ensures var t := SwapNet(After(h, CONTENTION, ds, ENOUGH));
            && Over(t.a) && Over(t.b)
            && if ContentionInTime(SwapDeliveries(ds)) then Agreed(t) else !BothFinished(t)
  {
    hide Doomed, After, Agreed, BothFinished, ContentionInTime, Over;
    ContentionEnds(SwapHvis(h), SwapDeliveries(ds));
    AfterSwap(h, CONTENTION, ds, ENOUGH);
  }

  /** One party has sent its Commit `w` times when the other one finds it. */
  function Found(w: nat): Net {
    Net(LEADER.(tries := w, sent := {Commit}), FOLLOWER, false, false)
  }

  /** Without a contention, whatever the commitments. */
  lemma FoundEnds(h: Hvis, ds: Deliveries, w: nat)
    requires 0 < w <= TURNS
    ensures var t := After(h, Found(w), ds, ENOUGH);
            && Over(t.a) && Over(t.b)
            && if InTime(ds, 0, w) then Agreed(t) else !BothFinished(t)
  {
    assert Waits(After(h, Found(w), ds, 0), 1, w, 0);
    hide Doomed, After, Agreed, BothFinished, InTime, Over, Waits;
    var q := FollowerBegun(h, Found(w), ds, 0, w);
    SettledThen(h, Found(w), ds, q);
  }

  // ---------------------------------------------------------------------
  // Equal commitments
  // ---------------------------------------------------------------------

  predicate Stubborn(p: Party) {
    (p.phase == Committing || p.phase == Failed) && !p.awaiting && Conf2Ack !in p.sent
  }

  lemma StubbornTurns(p: Party, q: Party, d: bool)
    requires Stubborn(p) && Stubborn(q)
    ensures Stubborn(Turned(p, true, Heard(q, false, d)))
  {
  }

  lemma {:induction false} NoneGivesWay(h: Hvis, ds: Deliveries, n: nat)
    requires LittleEndian(h.a) == LittleEndian(h.b)
    ensures var t := After(h, CONTENTION, ds, n);
            Stubborn(t.a) && Stubborn(t.b) && !t.ackA && !t.ackB
    decreases n
  {
    hide LittleEndian, Turned, Heard;
    if n > 0 {
      NoneGivesWay(h, ds, n - 1);
      var t, d := After(h, CONTENTION, ds, n - 1), ds(n - 1);
      StubbornTurns(t.a, t.b, d.toA);
      StubbornTurns(t.b, t.a, d.toB);
    }
  }

  /** Then a contention makes both fail, even if every message arrives. */
  lemma TieFails(h: Hvis, ds: Deliveries)
    requires LittleEndian(h.a) == LittleEndian(h.b)
    ensures var t := After(h, CONTENTION, ds, ENOUGH); t.a.phase == Failed && t.b.phase == Failed
  {
    hide After;
    NoneGivesWay(h, ds, ENOUGH);
    EveryoneEnds(h, CONTENTION, ds);
  }

  // ---------------------------------------------------------------------
  // Losses
  // ---------------------------------------------------------------------

  /** In any ten rounds, at least two lose no message. */
  ghost predicate FewLost(ds: Deliveries) {
    forall i: nat :: TwoArrive(ds, i)
  }

  ghost predicate TwoArrive(ds: Deliveries, i: nat) {
    exists a: nat, b: nat :: i <= a < b < i + TURNS && ds(a) == Delivery(true, true) && ds(b) == Delivery(true, true)
  }

  /** When the Conf2ACK is sent. */
  function AckRound(ds: Deliveries, i: nat): nat {
    var dh1 := Next(ds, 1, i, TURNS);
    var dh2 := Next(ds, 2, dh1 + 1, TURNS);
    var confirm1 := Next(ds, 3, dh2 + 1, TURNS);
    Next(ds, 4, confirm1 + 1, TURNS) + 1
  }

  lemma TwoKeys(ds: Deliveries, k: nat, next: nat, i: nat) returns (m: nat)
    requires TwoArrive(ds, i) && next == k + 1
    ensures m == Next(ds, k, i, TURNS) && m + 1 < i + TURNS && Next(ds, next, m + 1, TURNS) < i + TURNS
  {
    m := Next(ds, k, i, TURNS);
    hide Next;
    var a: nat, b: nat :| i <= a < b < i + TURNS && ds(a) == Delivery(true, true) && ds(b) == Delivery(true, true);
    assert KeyArrives(ds(a), k) && KeyArrives(ds(b), next);
  }

  lemma FewKeys(ds: Deliveries, i: nat)
    requires FewLost(ds)
    ensures var dh1 := Next(ds, 1, i, TURNS);
            var dh2 := Next(ds, 2, dh1 + 1, TURNS);
            var confirm1 := Next(ds, 3, dh2 + 1, TURNS);
            var confirm2 := Next(ds, 4, confirm1 + 1, TURNS);
            && dh2 - i < TURNS && confirm1 - dh1 <= TURNS && confirm2 - dh2 <= TURNS && confirm2 - confirm1 < TURNS
  {
    hide Next, TwoArrive;
    assert TwoArrive(ds, i);
    var dh1 := TwoKeys(ds, 1, 2, i);
    assert TwoArrive(ds, dh1 + 1);
    var dh2 := TwoKeys(ds, 2, 3, dh1 + 1);
    assert TwoArrive(ds, dh2 + 1);
    var confirm1 := TwoKeys(ds, 3, 4, dh2 + 1);
    assert TwoArrive(ds, confirm1 + 1);
    var confirm2 := TwoKeys(ds, 4, 5, confirm1 + 1);
  }

  lemma AckDecides(ds: Deliveries, i: nat, w: nat)
    requires FewLost(ds) && w + (Next(ds, 1, i, TURNS) - i) < TURNS
    ensures InTime(ds, i, w) <==> ds(AckRound(ds, i)).toA
  {
    hide Next, TwoArrive;
    FewKeys(ds, i);
  }

  /** With so few losses the handshake depends on the Conf2ACK alone. */
  lemma FewLosses(ds: Deliveries)
    requires FewLost(ds)
    ensures ContentionInTime(ds) <==> ds(AckRound(ds, Next(ds, 0, 0, TURNS) + 1)).toA
    ensures InTime(ds, 0, 1) <==> ds(AckRound(ds, 0)).toA
  {
    hide Next, TwoArrive, AckRound, InTime, KeyArrives;
    assert TwoArrive(ds, 0);
    var commit := TwoKeys(ds, 0, 1, 0);
    var n := commit + 1;
    AckDecides(ds, n, n);
    var dh1 := TwoKeys(ds, 1, 2, 0);
    AckDecides(ds, 0, 1);
  }

  function AllArrive(): Deliveries {
    (i: nat) => Delivery(true, true)
  }

  /** Without a loss both end well, with or without a contention. */
  lemma NoLoss()
    ensures ContentionInTime(AllArrive()) && InTime(AllArrive(), 0, 1)
  {
    hide Next, AckRound, InTime, ContentionInTime;
    var ds := AllArrive();
    forall i: nat
      ensures TwoArrive(ds, i)
    {
      assert ds(i) == ds(i + 1) == Delivery(true, true);
    }
    FewLosses(ds);
  }

  /** Every message arrives but those of the first nine rounds. */
  function NineLost(): Deliveries {
    (i: nat) => Delivery(i >= 9, i >= 9)
  }

  /** Each loop needs two messages, so nine losses in ten turns are too many. */
  lemma NineLosses()
    ensures !ContentionInTime(NineLost())
  {
    hide InTime;
    var ds := NineLost();
    var commit := Next(ds, 0, 0, TURNS);
    assert commit >= 9;
    TooLate(ds, commit + 1, commit + 1);
  }

  /** Every message arrives but the Conf2ACK. */
  function AckLost(): Deliveries {
    (i: nat) => Delivery(i != 5, true)
  }

  lemma AtOnce(ds: Deliveries, k: nat, i: nat)
    requires KeyArrives(ds(i), k)
    ensures Next(ds, k, i, TURNS) == i
  {
  }

  /** The Conf2ACK is sent once, so that its loss alone makes the initiator fail. */
  lemma OneLoss()
    ensures !ContentionInTime(AckLost())
  {
    hide Next;
    var ds := AckLost();
    AtOnce(ds, 0, 0);
    AtOnce(ds, 1, 1);
    AtOnce(ds, 2, 2);
    AtOnce(ds, 3, 3);
    AtOnce(ds, 4, 4);
  }

  // ---------------------------------------------------------------------
  // The sessions
  // ---------------------------------------------------------------------

  /** What a hears in the first `n` rounds. */
  function InboxOfA(h: Hvis, s: Net, ds: Deliveries, n: nat): seq<Incoming>
    requires InTurn(s)
  {
    if n == 0 then []
    else
      var t := After(h, s, ds, n - 1);
      InboxOfA(h, s, ds, n - 1)
      + if Over(t.a) || t.a.tries >= TURNS then [] else [Heard(t.b, t.ackB, ds(n - 1).toA)]
  }

  function InboxOfB(h: Hvis, s: Net, ds: Deliveries, n: nat): seq<Incoming>
    requires InTurn(s)
  {
    InboxOfA(SwapHvis(h), SwapNet(s), SwapDeliveries(ds), n)
  }

  /** `part` is in the inbox from number `i` on. */
  predicate Holds(inbox: seq<Incoming>, i: nat, part: seq<Incoming>) {
    forall k :: 0 <= k < |part| ==> At(inbox, i + k) == part[k]
  }

  lemma HeardNext(h: Hvis, s: Net, ds: Deliveries, inbox: seq<Incoming>, i: nat, n: nat)
    requires InTurn(s) && n > 0 && Holds(inbox, i, InboxOfA(h, s, ds, n))
    ensures var t, before := After(h, s, ds, n - 1), InboxOfA(h, s, ds, n - 1);
            && Holds(inbox, i, before)
            && if Over(t.a) || t.a.tries >= TURNS then InboxOfA(h, s, ds, n) == before
               else |InboxOfA(h, s, ds, n)| == |before| + 1
                    && At(inbox, i + |before|) == Heard(t.b, t.ackB, ds(n - 1).toA)
  {
    hide After, Heard, Over, At;
    var part, before := InboxOfA(h, s, ds, n), InboxOfA(h, s, ds, n - 1);
    forall k | 0 <= k < |before|
      ensures At(inbox, i + k) == before[k]
    {
      assert part[k] == before[k];
    }
    if |part| > |before| {
      assert At(inbox, i + |before|) == part[|before|];
    }
  }

  /** A session that hears this goes the same way. */
  lemma {:induction false} HearsA(h: Hvis, s: Net, ds: Deliveries, inbox: seq<Incoming>, i: nat, n: nat)
    requires InTurn(s) && s.a.tries <= TURNS && Holds(inbox, i, InboxOfA(h, s, ds, n))
    ensures var a := After(h, s, ds, n).a;
            InLoop(s.a) && InLoop(a)
            && Drive(s.a, Larger(h.a, h.b), inbox, i)
               == Drive(a, Larger(h.a, h.b), inbox, i + |InboxOfA(h, s, ds, n)|)
    decreases n
  {
    hide Drive, Larger, Heard, Turned, Holds, At, Over;
    if n > 0 {
      HeardNext(h, s, ds, inbox, i, n);
      HearsA(h, s, ds, inbox, i, n - 1);
      var t := After(h, s, ds, n - 1);
      hide InboxOfA;
      OneTurn(t.a, Larger(h.a, h.b), inbox, i + |InboxOfA(h, s, ds, n - 1)|, Heard(t.b, t.ackB, ds(n - 1).toA));
    }
  }

  lemma OneTurn(p: Party, wins: bool, inbox: seq<Incoming>, i: nat, m: Incoming)
    requires InLoop(p) && p.phase != Probing && !p.awaiting
    requires Over(p) || p.tries >= TURNS || At(inbox, i) == m
    ensures var q := Turned(p, wins, m);
            InLoop(q)
            && Drive(p, wins, inbox, i) == Drive(q, wins, inbox, if Over(p) || p.tries >= TURNS then i else i + 1)
  {
    hide Drive;
    if !Over(p) {
      StepDrives(p, wins, inbox, i);
      if p.tries < TURNS {
        StepDrives(Send(p), wins, inbox, i);
      }
    }
  }

  lemma HoldsRest(pre: seq<Incoming>, part: seq<Incoming>)
    ensures Holds(pre + part, |pre|, part)
  {
  }

  /** A session that starts with `pre` and comes to a's state by it ends as a does. */
  lemma SessionHears(h: Hvis, s: Net, ds: Deliveries, n: nat, pre: seq<Incoming>, inbox: seq<Incoming>)
    requires InTurn(s) && s.a.tries <= TURNS && inbox == pre + InboxOfA(h, s, ds, n)
    requires InLoop(s.a) && Over(After(h, s, ds, n).a)
    requires Drive(START, Larger(h.a, h.b), inbox, 0) == Drive(s.a, Larger(h.a, h.b), inbox, |pre|)
    ensures Drive(START, Larger(h.a, h.b), inbox, 0) == After(h, s, ds, n).a
  {
    hide Drive, After, Larger, InboxOfA, Over, Holds, At, InTurn;
    var part, end := InboxOfA(h, s, ds, n), After(h, s, ds, n).a;
    HoldsRest(pre, part);
    HearsA(h, s, ds, inbox, |pre|, n);
    Ended(end, Larger(h.a, h.b), inbox, |pre| + |part|);
  }

  /** Two sessions with these hash commitments, that find nothing at first and then hear
      each other in lockstep, end as the rounds do. */
  lemma ContentionSessions(h: Hvis, ds: Deliveries)
    ensures var t := After(h, CONTENTION, ds, ENOUGH);
            && Drive(START, Larger(h.a, h.b), [Nothing] + InboxOfA(h, CONTENTION, ds, ENOUGH), 0) == t.a
            && Drive(START, Larger(h.b, h.a), [Nothing] + InboxOfB(h, CONTENTION, ds, ENOUGH), 0) == t.b
  {
    hide Drive, After, Larger, InboxOfA;
    var a, b := [Nothing] + InboxOfA(h, CONTENTION, ds, ENOUGH), [Nothing] + InboxOfB(h, CONTENTION, ds, ENOUGH);
    StepDrives(START, Larger(h.a, h.b), a, 0);
    StepDrives(START, Larger(h.b, h.a), b, 0);
    EveryoneEnds(h, CONTENTION, ds);
    AfterSwap(h, CONTENTION, ds, ENOUGH);
    SessionHears(h, CONTENTION, ds, ENOUGH, [Nothing], a);
    SessionHears(SwapHvis(h), CONTENTION, SwapDeliveries(ds), ENOUGH, [Nothing], b);
  }

  /** And so do a session that hears nothing while it sends its first Commit and one
      that finds that. */
  lemma FoundSessions(h: Hvis, ds: Deliveries)
    ensures var t := After(h, Found(1), ds, ENOUGH);
            && Drive(START, Larger(h.a, h.b), [Nothing, Nothing] + InboxOfA(h, Found(1), ds, ENOUGH), 0) == t.a
            && Drive(START, Larger(h.b, h.a), [Got(Commit, true, true)] + InboxOfB(h, Found(1), ds, ENOUGH), 0) == t.b
  {
    hide Drive, After, Larger, InboxOfA;
    var pre, commit := [Nothing, Nothing], [Got(Commit, true, true)];
    var a, b := pre + InboxOfA(h, Found(1), ds, ENOUGH), commit + InboxOfB(h, Found(1), ds, ENOUGH);
    StepDrives(START, Larger(h.a, h.b), a, 0);
    assert At(a, 0) == At(a, 1) == Nothing && At(b, 0) == Got(Commit, true, true);
    TurnDrives(LEADER, Larger(h.a, h.b), a, 1);
    assert Receive(Send(LEADER), Larger(h.a, h.b), Nothing) == Found(1).a;
    StepDrives(START, Larger(h.b, h.a), b, 0);
    EveryoneEnds(h, Found(1), ds);
    AfterSwap(h, Found(1), ds, ENOUGH);
    SessionHears(h, Found(1), ds, ENOUGH, pre, a);
    SessionHears(SwapHvis(h), SwapNet(Found(1)), SwapDeliveries(ds), ENOUGH, commit, b);
  }
}
