/** `init_session`, `dh_part1`, `dh_part2` and the two finalize methods of
    uvgrtp-2.0.0/src/zrtp.cc, whose loops are the steps of ZrtpRoles. */
module ZrtpSession {
  import opened Bits
  import opened ZrtpRoles

  /** What the `i`-th receive returns; silence once `inbox` is used up. */
  function At(inbox: seq<Incoming>, i: nat): Incoming {
    if i < |inbox| then inbox[i] else Nothing
  }

  function Rank(phase: Phase): nat {
    match phase
    case Probing => 4
    case Committing => 3
    case SendingDh1 | SendingDh2 => 2
    case Confirming1 | Confirming2 => 1
    case Finished | Failed => 0
  }

  function TurnsLeft(p: Party, inbox: seq<Incoming>, i: nat): nat {
    if p.phase == Probing then if i < |inbox| then |inbox| - i else 0
    else if p.tries > TURNS then 0
    else 2 * (TURNS - p.tries) + 1 + (if p.awaiting then 0 else 1)
  }

  /** What holds of a party in every loop. */
  predicate InLoop(p: Party) {
    p.tries <= TURNS && (p.awaiting ==> p.tries < TURNS) && (p.phase == Probing ==> !p.awaiting)
  }

  /** The party after it has handled everything it receives. */
  function Drive(p: Party, wins: bool, inbox: seq<Incoming>, i: nat): Party
    requires InLoop(p)
    decreases Rank(p.phase), TurnsLeft(p, inbox, i)
  {
    if Over(p) then p
    else if p.phase != Probing && !p.awaiting then Drive(Send(p), wins, inbox, i)
    else Drive(Receive(p, wins, At(inbox, i)), wins, inbox, i + 1)
  }

  class Zrtp {
    const ours: array<byte>
    const theirs: array<byte>
    const inbox: seq<Incoming>
    ghost const wins: bool
    var pos: nat
    var role: Role
    var sent: set<Kind>

    /** The hash commitments decide who wins a contention. */
    ghost predicate Contends()
      reads ours, theirs
    {
      ours.Length == theirs.Length == 32 && wins == Larger(ours[..], theirs[..])
    }

    constructor (ours: array<byte>, theirs: array<byte>, inbox: seq<Incoming>)
      requires ours.Length == theirs.Length == 32
      ensures this.ours == ours && this.theirs == theirs && this.inbox == inbox && Contends()
      ensures pos == 0 && role == Unset && sent == {}
    {
      this.ours, this.theirs, this.inbox := ours, theirs, inbox;
      this.wins := Larger(ours[..], theirs[..]);
      pos, role, sent := 0, Unset, {};
    }

    /** The party between two turns of a loop. */
    function Now(phase: Phase, tries: nat): Party
      reads this
    {
      Party(phase, role, tries, false, sent)
    }

    /** What remains to happen does not depend on how far we are. */
    ghost predicate OnCourse(end: Party, phase: Phase, tries: nat)
      reads this
    {
      tries <= TURNS && end == Drive(Now(phase, tries), wins, inbox, pos)
    }

    method RecvMsg() returns (m: Incoming)
      modifies `pos
      ensures m == At(inbox, old(pos)) && pos == old(pos) + 1
    {
      m := if pos < |inbox| then inbox[pos] else Nothing;
      pos := pos + 1;
    }

    method SendMsg(kind: Kind)
      modifies `sent
      ensures sent == old(sent) + {kind}
    {
      sent := sent + {kind};
    }

    /** One turn of a loop: send, then receive. */
    method Turn(phase: Phase, tries: nat, ghost end: Party) returns (m: Incoming)
      requires phase !in {Probing, Finished, Failed} && tries < TURNS && OnCourse(end, phase, tries)
      modifies `pos, `sent
      ensures var p := Party(phase, role, tries, true, sent);
              end == Drive(Receive(p, wins, m), wins, inbox, pos)
    {
      ghost var p := Send(Now(phase, tries));
      assert end == Drive(p, wins, inbox, pos);
      SendMsg(Outgoing(phase));
      m := RecvMsg();
      assert end == Drive(Receive(p, wins, m), wins, inbox, pos);
    }

    /** The messages already there, up to the first silence. */
    method Probe(ghost end: Party) returns (committed: bool)
      requires role == Unset && OnCourse(end, Probing, 0)
      modifies `pos, `role
      ensures role == if committed then Responder else Initiator
      ensures OnCourse(end, if committed then SendingDh1 else Committing, 0)
    {
      while true
        invariant role == Unset && OnCourse(end, Probing, 0)
        decreases if pos < |inbox| then |inbox| - pos else 0
      {
        var m := RecvMsg();
        if m.Nothing? {
          role := Initiator;
          return false;
        }
        if m.kind == Commit {
          role := Responder;
          return true;
        }
      }
    }

    /** init_session: false if it times out, and then the session has failed. The
        message that ended it as initiator is parsed by dh_part2. */
    method InitSession(ghost end: Party) returns (ok: bool, last: Incoming)
      requires Contends() && role == Unset && OnCourse(end, Probing, 0)
      modifies this
      ensures !ok ==> OnCourse(end, Failed, 0)
      ensures ok ==> role in {Initiator, Responder}
      ensures ok && role == Responder ==> OnCourse(end, SendingDh1, 0)
      ensures ok && role == Initiator ==>
                last.Got? && end == Drive(StartDh2(Now(Committing, 0), last), wins, inbox, pos)
    {
      last := Nothing;
      var committed := Probe(end);
      if committed {
        return true, last;
      }
      var i := 0;
      while i < TURNS
        invariant 0 <= i <= TURNS && role == Initiator && OnCourse(end, Committing, i)
      {
        last := Turn(Committing, i, end);
        if last.Got? {
          if last.kind == Commit {
            var larger := AreWeInitiator(ours, theirs, false);
            assert ours[..32] == ours[..] && theirs[..32] == theirs[..];
            if !larger {
              role := Responder;
              return true, last;
            }
          } else if last.kind == DhPart1 || last.kind == Confirm1 {
            return true, last;
          }
        }
        i := i + 1;
      }
      ok := false;
    }

    method DoDhPart1(ghost end: Party) returns (ok: bool)
      requires role == Responder && OnCourse(end, SendingDh1, 0)
      modifies `pos, `sent
      ensures OnCourse(end, if ok then Confirming1 else Failed, 0)
    {
      var i := 0;
      while i < TURNS
        invariant 0 <= i <= TURNS && OnCourse(end, SendingDh1, i)
      {
        var m := Turn(SendingDh1, i, end);
        if m.Got? && m.kind == DhPart2 && m.parsed {
          return true;
        }
        i := i + 1;
      }
      ok := false;
    }

    method DoDhPart2(first: Incoming, ghost end: Party) returns (ok: bool, last: Incoming)
      requires role == Initiator && first.Got? && end == Drive(StartDh2(Now(Committing, 0), first), wins, inbox, pos)
      modifies `pos, `sent
      ensures !ok ==> OnCourse(end, Failed, 0)
      ensures ok ==> last.Got? && OnCourse(end, if last.parsed && last.valid then Confirming2 else Failed, 0)
    {
      last := Nothing;
      if !first.parsed {
        return false, last;
      }
      var i := 0;
      while i < TURNS
        invariant 0 <= i <= TURNS && OnCourse(end, SendingDh2, i)
      {
        last := Turn(SendingDh2, i, end);
        if last.Got? && last.kind == Confirm1 {
          return true, last;
        }
        i := i + 1;
      }
      ok := false;
    }

    method ResponderFinalize(ghost end: Party) returns (ok: bool)
      requires role == Responder && OnCourse(end, Confirming1, 0)
      modifies `pos, `sent
      ensures OnCourse(end, if ok then Finished else Failed, 0)
    {
      var i := 0;
      while i < TURNS
        invariant 0 <= i <= TURNS && OnCourse(end, Confirming1, i)
      {
        var m := Turn(Confirming1, i, end);
        if m.Got? && m.kind == Confirm2 && m.parsed {
          if !m.valid {
            return false;
          }
          SendMsg(Conf2Ack);
          return true;
        }
        i := i + 1;
      }
      ok := false;
    }

    method InitiatorFinalize(first: Incoming, ghost end: Party) returns (ok: bool)
      requires role == Initiator && first.Got?
      requires OnCourse(end, if first.parsed && first.valid then Confirming2 else Failed, 0)
      modifies `pos, `sent
      ensures OnCourse(end, if ok then Finished else Failed, 0)
    {
      if !first.parsed || !first.valid {
        return false;
      }
      var i := 0;
      while i < TURNS
        invariant 0 <= i <= TURNS && OnCourse(end, Confirming2, i)
      {
        var m := Turn(Confirming2, i, end);
        if m.Got? && m.kind == Conf2Ack {
          return true;
        }
        i := i + 1;
      }
      ok := false;
    }

    /** init_dhm after the Hello exchange: it succeeds exactly if the party
        finishes, in the role the party has. */
    method InitDhm() returns (ok: bool)
      requires Contends() && role == Unset && sent == {} && pos == 0
      modifies this
      ensures Party(if ok then Finished else Failed, role, 0, false, sent) == Drive(START, wins, inbox, 0)
    {
      ghost var end := Drive(START, wins, inbox, 0);
      var last;
      ok, last := InitSession(end);
      if !ok {
        return;
      }
      if role == Initiator {
        ok, last := DoDhPart2(last, end);
        if ok {
          ok := InitiatorFinalize(last, end);
        }
      } else {
        ok := DoDhPart1(end);
        if ok {
          ok := ResponderFinalize(end);
        }
      }
    }
  }
}
