/** When a ZRTP session ends well, for everything that it can receive
    (uvgrtp-2.0.0/src/zrtp.cc:408-614). */
module ZrtpLoops {
  import opened ZrtpNetwork
  import opened ZrtpRoles
  import opened ZrtpSession

  const LOOPS := {Committing, SendingDh1, SendingDh2, Confirming1, Confirming2}

  // ---------------------------------------------------------------------
  // One loop
  // ---------------------------------------------------------------------

  /** The messages that end a loop. */
  predicate Decides(phase: Phase, wins: bool, m: Incoming) {
    m.Got? &&
    match phase
    case Committing => m.kind == DhPart1 || m.kind == Confirm1 || (m.kind == Commit && !wins)
    case SendingDh1 => m.kind == DhPart2 && m.parsed
    case SendingDh2 => m.kind == Confirm1
    case Confirming1 => m.kind == Confirm2 && m.parsed
    case Confirming2 => m.kind == Conf2Ack
    case Probing => m.kind == Commit
    case _ => false
  }

  /** The first of the `n` receives from number `i` on that ends the loop, or `i + n`. */
  function First(phase: Phase, wins: bool, inbox: seq<Incoming>, i: nat, n: nat): (k: nat)
    ensures i <= k <= i + n
    ensures forall j :: i <= j < k ==> !Decides(phase, wins, At(inbox, j))
    ensures k < i + n ==> Decides(phase, wins, At(inbox, k))
    decreases n
  {
    if n == 0 || Decides(phase, wins, At(inbox, i)) then i else First(phase, wins, inbox, i + 1, n - 1)
  }

  /** Where the message that ends a loop leads. */
  function Onward(phase: Phase, m: Incoming): Phase
    requires m.Got?
  {
    match phase
    case Committing => if m.kind == Commit then SendingDh1 else if m.parsed then SendingDh2 else Failed
    case SendingDh1 => Confirming1
    case SendingDh2 => if m.parsed && m.valid then Confirming2 else Failed
    case Confirming1 => if m.valid then Finished else Failed
    case Confirming2 => Finished
    case _ => Failed
  }

  /** Two steps of a session: a turn. */
  lemma TurnDrives(p: Party, wins: bool, inbox: seq<Incoming>, i: nat)
    requires InLoop(p) && p.phase in LOOPS && !p.awaiting && p.tries < TURNS
    ensures InLoop(Receive(Send(p), wins, At(inbox, i)))
    ensures Drive(p, wins, inbox, i) == Drive(Receive(Send(p), wins, At(inbox, i)), wins, inbox, i + 1)
  {
    StepDrives(p, wins, inbox, i);
    StepDrives(Send(p), wins, inbox, i);
  }

  lemma TurnIs(p: Party, wins: bool, m: Incoming) returns (q: Party)
    requires InLoop(p) && p.phase in LOOPS && !p.awaiting && p.tries < TURNS
    ensures InLoop(Send(p)) && q == Receive(Send(p), wins, m)
    ensures !Decides(p.phase, wins, m) ==> q == p.(tries := p.tries + 1, sent := q.sent)
    ensures Decides(p.phase, wins, m) ==>
              && q.phase == Onward(p.phase, m) && q.tries == 0 && !q.awaiting
              && q.role == (if p.phase == Committing && m.kind == Commit then Responder else p.role)
  {
    q := Receive(Send(p), wins, m);
  }

  lemma LastTurn(p: Party)
    requires p.phase in LOOPS && !p.awaiting && p.tries == TURNS
    ensures Send(p) == p.(phase := Failed, tries := 0)
  {
  }

  lemma Ended(p: Party, wins: bool, inbox: seq<Incoming>, i: nat)
    requires InLoop(p) && Over(p)
    ensures Drive(p, wins, inbox, i) == p
  {
  }

  /** A loop ends with the first message that decides, if that comes within its turns. */
  lemma {:induction false} LoopEnds(p: Party, wins: bool, inbox: seq<Incoming>, i: nat, n: nat) returns (q: Party)
    requires p.phase in LOOPS && !p.awaiting && p.tries + n == TURNS
    ensures var k := First(p.phase, wins, inbox, i, n);
            if k == i + n then
              q == p.(phase := Failed, tries := 0, sent := q.sent) && Drive(p, wins, inbox, i) == q
            else
              var m := At(inbox, k);
              && q.phase == Onward(p.phase, m) && q.tries == 0 && !q.awaiting
              && q.role == (if p.phase == Committing && m.kind == Commit then Responder else p.role)
              && Drive(p, wins, inbox, i) == Drive(q, wins, inbox, k + 1)
    decreases n
  {
    hide Decides, Onward, Receive, Send, Drive;
    if n == 0 {
      LastTurn(p);
      q := Send(p);
      StepDrives(p, wins, inbox, i);
      Ended(q, wins, inbox, i);
    } else {
      TurnDrives(p, wins, inbox, i);
      var r := TurnIs(p, wins, At(inbox, i));
      if Decides(p.phase, wins, At(inbox, i)) {
        q := r;
      } else {
        q := LoopEnds(r, wins, inbox, i + 1, n - 1);
      }
    }
  }

  // ---------------------------------------------------------------------
  // The two parts
  // ---------------------------------------------------------------------

  /** A DHPart2 and then a Confirm2, each the first that parses and in time; and the
      MACs of that Confirm2 are right. */
  predicate RespondsWell(inbox: seq<Incoming>, i: nat) {
    var a := First(SendingDh1, false, inbox, i, TURNS);
    var b := First(Confirming1, false, inbox, a + 1, TURNS);
    a < i + TURNS && b < a + 1 + TURNS && At(inbox, b).valid
  }

  /** A Confirm1 and then a Conf2ACK, each the first one and in time; and the Confirm1
      parses and its MACs are right. */
  predicate InitiatesWell(inbox: seq<Incoming>, i: nat) {
    var a := First(SendingDh2, false, inbox, i, TURNS);
    var b := First(Confirming2, false, inbox, a + 1, TURNS);
    a < i + TURNS && At(inbox, a).parsed && At(inbox, a).valid && b < a + 1 + TURNS
  }

  lemma {:induction false} WinsOnlyCommits(phase: Phase, wins: bool, inbox: seq<Incoming>, i: nat, n: nat)
    requires phase != Committing
    ensures First(phase, wins, inbox, i, n) == First(phase, false, inbox, i, n)
    decreases n
  {
    if n > 0 {
      WinsOnlyCommits(phase, wins, inbox, i + 1, n - 1);
    }
  }

  lemma Responds(p: Party, wins: bool, inbox: seq<Incoming>, i: nat) returns (end: Party)
    requires p.phase == SendingDh1 && p.tries == 0 && !p.awaiting
    ensures end == Drive(p, wins, inbox, i)
    ensures end.phase == (if RespondsWell(inbox, i) then Finished else Failed) && end.role == p.role
  {
    hide Drive, First, Decides;
    end := Drive(p, wins, inbox, i);
    WinsOnlyCommits(SendingDh1, wins, inbox, i, TURNS);
    var a := First(SendingDh1, wins, inbox, i, TURNS);
    var q := LoopEnds(p, wins, inbox, i, TURNS);
    if a < i + TURNS {
      WinsOnlyCommits(Confirming1, wins, inbox, a + 1, TURNS);
      var b := First(Confirming1, wins, inbox, a + 1, TURNS);
      var r := LoopEnds(q, wins, inbox, a + 1, TURNS);
      if b < a + 1 + TURNS {
        Ended(r, wins, inbox, b + 1);
      }
    }
  }

  lemma Initiates(p: Party, wins: bool, inbox: seq<Incoming>, i: nat) returns (end: Party)
    requires p.phase == SendingDh2 && p.tries == 0 && !p.awaiting
    ensures end == Drive(p, wins, inbox, i)
    ensures end.phase == (if InitiatesWell(inbox, i) then Finished else Failed) && end.role == p.role
  {
    hide Drive, First, Decides;
    end := Drive(p, wins, inbox, i);
    WinsOnlyCommits(SendingDh2, wins, inbox, i, TURNS);
    var a := First(SendingDh2, wins, inbox, i, TURNS);
    var q := LoopEnds(p, wins, inbox, i, TURNS);
    if a < i + TURNS {
      if Over(q) {
        Ended(q, wins, inbox, a + 1);
      } else {
        WinsOnlyCommits(Confirming2, wins, inbox, a + 1, TURNS);
        var b := First(Confirming2, wins, inbox, a + 1, TURNS);
        var r := LoopEnds(q, wins, inbox, a + 1, TURNS);
        if b < a + 1 + TURNS {
          Ended(r, wins, inbox, b + 1);
        }
      }
    }
  }

  // ---------------------------------------------------------------------
  // A whole session
  // ---------------------------------------------------------------------

  /** The first receive from number `i` on that returns nothing or a Commit. */
  function Settled(inbox: seq<Incoming>, i: nat): (k: nat)
    ensures i <= k
    ensures forall j :: i <= j < k ==> At(inbox, j).Got? && At(inbox, j).kind != Commit
    ensures At(inbox, k).Nothing? || At(inbox, k).kind == Commit
    decreases if i < |inbox| then |inbox| - i else 0
  {
    if At(inbox, i).Nothing? || At(inbox, i).kind == Commit then i else Settled(inbox, i + 1)
  }

  lemma {:induction false} ProbeEnds(wins: bool, inbox: seq<Incoming>, i: nat) returns (q: Party)
    ensures var k := Settled(inbox, i);
            && q.tries == 0 && !q.awaiting
            && (if At(inbox, k).Nothing? then q.phase == Committing && q.role == Initiator
                else q.phase == SendingDh1 && q.role == Responder)
            && Drive(START, wins, inbox, i) == Drive(q, wins, inbox, k + 1)
    decreases if i < |inbox| then |inbox| - i else 0
  {
    StepDrives(START, wins, inbox, i);
    if At(inbox, i).Nothing? || At(inbox, i).kind == Commit {
      q := Receive(START, wins, At(inbox, i));
    } else {
      q := ProbeEnds(wins, inbox, i + 1);
    }
  }

  /** What a session must receive to end well: as responder, if a Commit came before
      the first silence or a winning Commit in the Commit loop, or else as initiator. */
  predicate GoesWell(wins: bool, inbox: seq<Incoming>) {
    var k := Settled(inbox, 0);
    var c := First(Committing, wins, inbox, k + 1, TURNS);
    if At(inbox, k).Got? then RespondsWell(inbox, k + 1)
    else c < k + 1 + TURNS
         && if At(inbox, c).kind == Commit then RespondsWell(inbox, c + 1)
            else At(inbox, c).parsed && InitiatesWell(inbox, c + 1)
  }

  predicate GivesWay(wins: bool, inbox: seq<Incoming>) {
    var k := Settled(inbox, 0);
    var c := First(Committing, wins, inbox, k + 1, TURNS);
    At(inbox, k).Got? || (c < k + 1 + TURNS && At(inbox, c).kind == Commit)
  }

  /** A session ends well if and only if it receives what GoesWell says, and fails
      otherwise; it is responder exactly if it got a Commit that it gave way to. So no
      session ends well unless the first Confirm of its last exchange that parses has
      right MACs, and a responder whose first such Confirm2 has not fails. */
  lemma SessionEnds(wins: bool, inbox: seq<Incoming>)
    ensures var end := Drive(START, wins, inbox, 0);
            && end.phase == (if GoesWell(wins, inbox) then Finished else Failed)
            && end.role == (if GivesWay(wins, inbox) then Responder else Initiator)
  {
    hide Drive, First, Settled, RespondsWell, InitiatesWell;
    var k := Settled(inbox, 0);
    var p := ProbeEnds(wins, inbox, 0);
    if At(inbox, k).Got? {
      var _ := Responds(p, wins, inbox, k + 1);
    } else {
      var c := First(Committing, wins, inbox, k + 1, TURNS);
      var q := LoopEnds(p, wins, inbox, k + 1, TURNS);
      if c < k + 1 + TURNS {
        if At(inbox, c).kind == Commit {
          var _ := Responds(q, wins, inbox, c + 1);
        } else if At(inbox, c).parsed {
          var _ := Initiates(q, wins, inbox, c + 1);
        } else {
          Ended(q, wins, inbox, c + 1);
        }
      }
    }
  }
}
