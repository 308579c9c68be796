/** Two sessions of uvgrtp-2.0.0/src/zrtp.cc that talk to each other: each receives
    only what the other has sent. */
module ZrtpNetwork {
  import opened ZrtpRoles
  import opened ZrtpSession

  /** The next send or receive of a session, and how much it has received then. */
  function Step(p: Party, wins: bool, inbox: seq<Incoming>, i: nat): (Party, nat)
    requires !Over(p) && InLoop(p)
  {
    if p.phase != Probing && !p.awaiting then (Send(p), i) else (Receive(p, wins, At(inbox, i)), i + 1)
  }

  lemma StepDrives(p: Party, wins: bool, inbox: seq<Incoming>, i: nat)
    requires !Over(p) && InLoop(p)
    ensures var (q, j) := Step(p, wins, inbox, i);
            InLoop(q) && Drive(q, wins, inbox, j) == Drive(p, wins, inbox, i)
  {
  }

  /** Both parties and how much each has received. */
  datatype Joint = Joint(pair: Pair, i: nat, j: nat)

  function SwapJoint(s: Joint): Joint {
    Joint(Swap(s.pair), s.j, s.i)
  }

  /** Session a goes on; what it receives, its peer has sent by then, or it is a
      message of another kind. */
  ghost predicate AdvancesA(h: Hvis, inbox: seq<Incoming>, s: Joint, t: Joint) {
    var p, m := s.pair.a, At(inbox, s.i);
    && !Over(p) && InLoop(p) && t.pair.b == s.pair.b && t.j == s.j
    && (t.pair.a, t.i) == Step(p, Larger(h.a, h.b), inbox, s.i)
    && (t.i > s.i && m.Got? ==> m.kind in s.pair.b.sent || m.kind == Other)
  }

  ghost predicate Advances(h: Hvis, a: seq<Incoming>, b: seq<Incoming>, s: Joint, t: Joint) {
    AdvancesA(h, a, s, t) || AdvancesA(SwapHvis(h), b, SwapJoint(s), SwapJoint(t))
  }

  /** The two sessions, interleaved in any way. */
  ghost predicate Talk(h: Hvis, a: seq<Incoming>, b: seq<Incoming>, joints: seq<Joint>) {
    && joints != [] && joints[0] == Joint(Pair(START, START), 0, 0)
    && forall k :: 0 <= k < |joints| - 1 ==> Advances(h, a, b, joints[k], joints[k + 1])
  }

  function Pairs(joints: seq<Joint>): (r: seq<Pair>)
    ensures |r| == |joints| && forall k :: 0 <= k < |joints| ==> r[k] == joints[k].pair
  {
    seq(|joints|, k requires 0 <= k < |joints| => joints[k].pair)
  }

  lemma AdvanceMoves(h: Hvis, inbox: seq<Incoming>, s: Joint, t: Joint)
    requires AdvancesA(h, inbox, s, t)
    ensures MovesA(h, s.pair, t.pair)
  {
    var p, m := s.pair.a, At(inbox, s.i);
    if p.phase == Probing || p.awaiting {
      assert (m.Got? ==> m.kind in s.pair.b.sent || m.kind == Other) && t.pair.a == Receive(p, Larger(h.a, h.b), m);
    }
  }

  /** Their conversation is a run of the protocol. */
  lemma TalkIsRun(h: Hvis, a: seq<Incoming>, b: seq<Incoming>, joints: seq<Joint>)
    requires Talk(h, a, b, joints)
    ensures Run(h, Pairs(joints))
  {
    var states := Pairs(joints);
    forall k | 0 <= k < |states| - 1
      ensures Moves(h, states[k], states[k + 1])
    {
      var s, t := joints[k], joints[k + 1];
      assert Advances(h, a, b, joints[k], joints[k + 1]);
      if AdvancesA(h, a, s, t) {
        AdvanceMoves(h, a, s, t);
      } else {
        AdvanceMoves(SwapHvis(h), b, SwapJoint(s), SwapJoint(t));
      }
    }
  }

  /** At every moment the rest of each session leads to its end. */
  ghost predicate OnTheWay(h: Hvis, a: seq<Incoming>, b: seq<Incoming>, s: Joint) {
    && InLoop(s.pair.a) && Drive(s.pair.a, Larger(h.a, h.b), a, s.i) == Drive(START, Larger(h.a, h.b), a, 0)
    && InLoop(s.pair.b) && Drive(s.pair.b, Larger(h.b, h.a), b, s.j) == Drive(START, Larger(h.b, h.a), b, 0)
  }

  lemma {:induction false} TalkLeads(h: Hvis, a: seq<Incoming>, b: seq<Incoming>, joints: seq<Joint>, k: nat)
    requires Talk(h, a, b, joints) && k < |joints|
    ensures OnTheWay(h, a, b, joints[k])
    decreases k
  {
    if k > 0 {
      var n := k - 1;
      TalkLeads(h, a, b, joints, n);
      var s := joints[n];
      assert Advances(h, a, b, joints[n], joints[n + 1]);
      if AdvancesA(h, a, s, joints[k]) {
        StepDrives(s.pair.a, Larger(h.a, h.b), a, s.i);
      } else {
        StepDrives(s.pair.b, Larger(h.b, h.a), b, s.j);
      }
    }
  }

  /** Two sessions that talk to each other until both are over agree on their roles;
      and if both end well, in opposite ones. */
  lemma SessionsAgree(h: Hvis, a: seq<Incoming>, b: seq<Incoming>, joints: seq<Joint>)
    requires Talk(h, a, b, joints)
    requires var s := joints[|joints| - 1].pair; Over(s.a) && Over(s.b)
    ensures var endA, endB := Drive(START, Larger(h.a, h.b), a, 0), Drive(START, Larger(h.b, h.a), b, 0);
            && Agree(endA, endB) && Agree(endB, endA)
            && (endA.phase == endB.phase == Finished ==>
                  (endA.role, endB.role) in {(Initiator, Responder), (Responder, Initiator)})
  {
    var n := |joints| - 1;
    TalkLeads(h, a, b, joints, n);
    TalkIsRun(h, a, b, joints);
    RolesAgree(h, Pairs(joints), n);
    RunKeeps(h, Pairs(joints), n);
  }
}
