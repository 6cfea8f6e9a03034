/** An operation that no other run interrupts: its statement-level steps leave the record exactly as
    the operation taken as a whole does. */
module Undisturbed {
  import opened Options
  import opened Border
  import opened Interleaving

  /** Winning the admission and starting the persona. */
  lemma StartAlone(s: State, r: int, t: string, opening: Message, a: InboundAnswers)
    requires PcOf(s, r).Idle? && Claimable(s.tb, t) && a.verdict == Admit && a.session.Some?
    ensures var s1 := After(s, ClaimToStart(r, t));
            var s2 := After(s1, StartSucceeds(r, a.session.value));
            var s3 := After(s2, RecordSession(r));
            After(s3, MarkOpening(r, opening.id)).tb == Judged(s.tb, t, opening, a)
  {
  }

  /** A start that fails leaves nothing behind. */
  lemma FailAlone(s: State, r: int, t: string, opening: Message, a: InboundAnswers)
    requires PcOf(s, r).Idle? && Claimable(s.tb, t) && a.verdict == Admit && a.session.None?
    ensures var s1 := After(s, ClaimToStart(r, t));
            var s2 := After(s1, StartFails(r));
            After(s2, GiveAdmissionBack(r)).tb == Judged(s.tb, t, opening, a) == s.tb
  {
    var tb := After(After(After(s, ClaimToStart(r, t)), StartFails(r)), GiveAdmissionBack(r)).tb;
    assert tb.rows == s.tb.rows;
  }

  lemma RefuseAlone(s: State, r: int, t: string, opening: Message, a: InboundAnswers)
    requires PcOf(s, r).Idle? && Claimable(s.tb, t) && a.verdict.Refuse? && a.verdict.refusal != WorkspaceUnknown && a.replied
    ensures var s1 := After(s, ClaimToRefuse(r, t, a.verdict.text));
            var s2 := After(s1, RefusalWritten(r));
            After(s2, RecordRefusal(r)).tb == Judged(s.tb, t, opening, a)
  {
  }

  // ---- delivery --------------------------------------------------------------------------

  ghost function ClaimedAll(s: State, r: int): State
    requires PcOf(s, r).Claiming?
    decreases |PcOf(s, r).todo|
  {
    if PcOf(s, r).todo == [] then s else ClaimedAll(After(s, ClaimNext(r, false)), r)
  }

  ghost function ReturnedAll(s: State, r: int): State
    decreases if PcOf(s, r).Returning? then |PcOf(s, r).left| else 0
  {
    if m :| PcOf(s, r).Returning? && m in PcOf(s, r).left then ReturnedAll(After(s, Unclaim(r, m, false)), r) else s
  }

  lemma ClaimStep(s: State, r: int, pc: Pc, s': State)
    requires PcOf(s, r) == pc && pc.Claiming? && pc.todo != [] && s' == After(s, ClaimNext(r, false))
    ensures var pair := (pc.thread, pc.todo[0]);
            && PcOf(s', r) == pc.(todo := pc.todo[1..], mine := if pair in s.tb.served then pc.mine else pc.mine + {pc.todo[0]})
            && s'.tb == s.tb.(served := s.tb.served + {pair})
    ensures ClaimedAll(s, r) == ClaimedAll(s', r)
  {
    if (pc.thread, pc.todo[0]) in s.tb.served { assert s.tb.served + {(pc.thread, pc.todo[0])} == s.tb.served; }
  }

  /** The messages of the list that were not marked before. */
  function New(t: string, todo: seq<string>, served: set<(string, string)>): set<string> {
    set m | m in todo && (t, m) !in served
  }

  function Listed(t: string, todo: seq<string>): set<(string, string)> { set m | m in todo :: (t, m) }

  lemma FirstOf(t: string, todo: seq<string>, served: set<(string, string)>, mine: set<string>)
    requires todo != []
    ensures served + {(t, todo[0])} + Listed(t, todo[1..]) == served + Listed(t, todo)
    ensures (if (t, todo[0]) in served then mine else mine + {todo[0]}) + New(t, todo[1..], served + {(t, todo[0])})
         == mine + New(t, todo, served)
  {
    assert todo == [todo[0]] + todo[1..];
  }

  /** Claiming one after the other marks every message and keeps those that were not marked yet. */
  lemma {:induction false} ClaimsAlone(s: State, r: int, pc: Pc)
    requires PcOf(s, r) == pc && pc.Claiming?
    ensures PcOf(ClaimedAll(s, r), r) == pc.(todo := [], mine := pc.mine + New(pc.thread, pc.todo, s.tb.served))
    ensures ClaimedAll(s, r).tb == s.tb.(served := s.tb.served + Listed(pc.thread, pc.todo))
    decreases |pc.todo|
  {
    if pc.todo == [] {
      assert New(pc.thread, pc.todo, s.tb.served) == {} && Listed(pc.thread, pc.todo) == {};
    } else {
      var s' := After(s, ClaimNext(r, false));
      ClaimStep(s, r, pc, s');
      ClaimsAlone(s', r, PcOf(s', r));
      FirstOf(pc.thread, pc.todo, s.tb.served, pc.mine);
    }
  }

  lemma UnclaimStep(s: State, r: int, pc: Pc, m: string, s': State)
    requires PcOf(s, r) == pc && pc.Returning? && m in pc.left && s' == After(s, Unclaim(r, m, false))
    ensures s'.tb == s.tb.(served := s.tb.served - {(pc.thread, m)})
    ensures if pc.left == {m} then PcOf(s', r) == Idle else PcOf(s', r) == pc.(left := pc.left - {m})
  {
    assert pc.left - {m} == {} <==> pc.left == {m};
  }

  lemma {:induction false} ReturnsAlone(s: State, r: int, pc: Pc)
    requires PcOf(s, r) == pc && pc.Returning?
    ensures ReturnedAll(s, r).tb == s.tb.(served := s.tb.served - Pairs(pc.thread, pc.left))
    decreases |pc.left|
  {
    if pc.left == {} {
      assert Pairs(pc.thread, pc.left) == {};
    } else {
      var m :| m in pc.left && ReturnedAll(s, r) == ReturnedAll(After(s, Unclaim(r, m, false)), r);
      var s' := After(s, Unclaim(r, m, false));
      UnclaimStep(s, r, pc, m, s');
      LastOf(pc.thread, pc.left, m, s.tb.served);
      if pc.left != {m} { ReturnsAlone(s', r, PcOf(s', r)); }
    }
  }

  lemma LastOf(t: string, left: set<string>, m: string, served: set<(string, string)>)
    requires m in left
    ensures served - {(t, m)} - Pairs(t, left - {m}) == served - Pairs(t, left)
    ensures Pairs(t, {m}) == {(t, m)}
  {
  }

  function IdSeq(messages: seq<Message>): seq<string> {
    seq(|messages|, i requires 0 <= i < |messages| => messages[i].id)
  }

  lemma IdsAreListed(t: string, messages: seq<Message>)
    ensures Listed(t, IdSeq(messages)) == IdsOf(t, messages)
  {
    forall p ensures p in IdsOf(t, messages) ==> p in Listed(t, IdSeq(messages)) {
      if p in IdsOf(t, messages) {
        var i :| 0 <= i < |messages| && p == (t, messages[i].id);
        assert IdSeq(messages)[i] == messages[i].id;
      }
    }
  }

  /** Taking the new pairs away again leaves what was marked before. */
  lemma NewTakenBack(t: string, todo: seq<string>, served: set<(string, string)>)
    ensures served + Listed(t, todo) - Pairs(t, New(t, todo, served)) == served
    ensures New(t, todo, served) == {} ==> served + Listed(t, todo) == served
  {
    forall p ensures p in served + Listed(t, todo) && p !in Pairs(t, New(t, todo, served)) <==> p in served {
      if p in Listed(t, todo) && p !in served { assert p.1 in New(t, todo, served); }
    }
    if New(t, todo, served) == {} { assert Pairs(t, New(t, todo, served)) == {}; }
  }

  /** A delivery: claiming, resuming, and giving back when nothing was put in motion. */
  lemma DeliverAlone(s: State, r: int, t: string, messages: seq<Message>, outcome: Outcome)
    requires PcOf(s, r).Idle?
    ensures var s1 := After(s, BeginDelivery(r, t, IdSeq(messages)));
            var s2 := ClaimedAll(s1, r);
            PcOf(s2, r).Claiming? && PcOf(s2, r).todo == []
            && ReturnedAll(After(s2, Resume(r, outcome)), r).tb == Delivered(s.tb, t, messages, outcome)
  {
    var ids := IdSeq(messages);
    var s1 := After(s, BeginDelivery(r, t, ids));
    var s2 := ClaimedAll(s1, r);
    ClaimsAlone(s1, r, Claiming(t, ids, {}, s.next));
    IdsAreListed(t, messages);
    NewTakenBack(t, ids, s.tb.served);
    var mine := PcOf(s2, r).mine;
    assert mine == New(t, ids, s.tb.served);
    var s3 := After(s2, Resume(r, outcome));
    if mine != {} && outcome == Neither { ReturnsAlone(s3, r, Returning(t, mine, mine, s.next)); }
  }
}
