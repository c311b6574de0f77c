/** The formats the host offers, the formats Android uses, and what a refused format means. */
module ProtocolFormats {
  import opened Base
  import opened Dmabuf
  import opened HostTask
  import opened Phone
  import opened PhoneRuns
  import opened Protocol
  import opened ProtocolSteps
  import opened ProtocolHost
  import opened ProtocolPump
  import opened ProtocolPool
  import opened ProtocolRuns
  import E = Endpoint
  import Transport
  import M = Messages

  /** The formats of the last feedback in the log. */
  function LastFormats(log: seq<M.HostMsg>): set<Format>
    decreases |log|
  {
    if log == [] then {}
    else
      var m := log[|log| - 1];
      if m.FormatFeedback? then set f | f in m.formats else LastFormats(log[..|log| - 1])
  }

  lemma FormatsAppend(log: seq<M.HostMsg>, m: M.HostMsg)
    ensures LastFormats(log + [m]) == if m.FormatFeedback? then set f | f in m.formats else LastFormats(log)
  {
    assert (log + [m])[..|log|] == log;
  }

  /** Without feedback in between the last formats stay the same. */
  lemma {:induction false} FormatsOfPrefix(log: seq<M.HostMsg>, n: nat)
    requires n <= |log| && forall i :: n <= i < |log| ==> !log[i].FormatFeedback?
    ensures LastFormats(log) == LastFormats(log[..n])
    decreases |log|
  {
    if n == |log| {
      assert log[..n] == log;
    } else {
      FormatsOfPrefix(log[..|log| - 1], n);
      assert log[..|log| - 1][..n] == log[..n];
    }
  }

  // ------------------------------------------------------------------------------------
  // The host's formats

  ghost predicate OffersLast(s: Sys) { s.Live() ==> s.H().feedback == LastFormats(s.back) }

  function Said(record: Option<M.HostMsg>, before: set<Format>): set<Format> {
    if record.Some? && record.value.FormatFeedback? then set f | f in record.value.formats else before
  }

  lemma ActionFormats(t: E.Table, a: E.Action)
    requires E.Apply(t, a).error.None? && !a.Create? && !a.Present?
    ensures var x := E.Apply(t, a);
      a.oid in x.table ==> a.oid in t && x.table[a.oid].state.feedback == Said(x.record, t[a.oid].state.feedback)
  {
    hide Task.PresentError, Task.DiscardError, Task.ReleaseError, Task.RegisterError, Task.UnregisterError, Task.FeedbackError, Task.AckError;
  }

  lemma ReceiptFormats(t: E.Table, m: M.PhoneMsg, fence: bool, signal: bool, send: bool)
    ensures var x := Receive(t, m, fence, signal, send);
      && (m.oid in x.table ==> x.table[m.oid].state.feedback == if m.oid in t then t[m.oid].state.feedback else {})
      && (m.oid !in t && m.oid in x.table ==> m.CreateTask?)
      && (x.record.Some? ==> x.record.value.BufferReleased?)
  {
    hide Task.AckError, Task.PresentError, Task.DiscardError;
  }

  lemma ActOffers(s: Sys, a: E.Action)
    requires OffersLast(s) && Allowed(s, a) && ActHost(s, a).open
    ensures OffersLast(ActHost(s, a))
  {
    hide E.Apply, Advances;
    if a.oid != s.oid {
      E.OtherObjectsUntouched(s.host, a, s.oid);
    } else {
      var x := E.Apply(s.host, a);
      ActionFormats(s.host, a);
      if x.record.Some? { FormatsAppend(s.back, x.record.value); }
      hide LastFormats, Allowed;
      assert s.back + [] == s.back;
    }
  }

  lemma TakeOffers(s: Sys, fence: bool, signal: bool, send: bool)
    requires Inv(s) && OffersLast(s) && s.taken < |s.sent|
    ensures OffersLast(TakeNext(s, fence, signal, send))
  {
    hide Serials, Acks, Points, Tokens, Covered, Metadata, Sizes, Receive, Phone.Valid, E.Valid;
    var m := s.sent[s.taken];
    var x := Receive(s.host, m, fence, signal, send);
    ReceiptFormats(s.host, m, fence, signal, send);
    if x.record.Some? { FormatsAppend(s.back, x.record.value); }
    assert s.back + [] == s.back;
    assert !s.Live() && m.CreateTask? ==> s.taken == 0;
  }

  lemma StepOffers(s: Sys, step: Step)
    requires Inv(s) && OffersLast(s) && Enabled(s, step) && Next(s, step).open
    ensures OffersLast(Next(s, step))
  {
    hide Inv, LastFormats, TakeNext, ActHost, Allowed, Apply, Look, Find, Settle, Settled, Connect, Dispatch, Announce;
    match step
    case HostTakes(fence, signal, send) => TakeOffers(s, fence, signal, send);
    case HostActs(a) => ActOffers(s, a);
    case _ =>
  }

  /** In every run, while the task is known to the host, the formats it judges frames by are
      exactly those of the last feedback it sent. */
  lemma {:induction false} HostOffersWhatItSaid(states: seq<Sys>, steps: seq<Step>, j: nat)
    requires IsRun(states, steps) && j < |states| && states[j].open
    ensures OffersLast(states[j])
  {
    hide Inv, Lending, Next, OffersLast;
    if j == 0 {
      assert OffersLast(states[0]) by { InitOffers(states[0]); }
    } else {
      assert Enabled(states[j - 1], steps[j - 1]);
      EnabledIsOpen(states[j - 1], steps[j - 1]);
      hide Enabled, Init;
      HostOffersWhatItSaid(states, steps, j - 1);
      RunHolds(states, steps, j - 1);
      StepOffers(states[j - 1], steps[j - 1]);
    }
  }

  lemma InitOffers(s: Sys)
    requires Init(s)
    ensures OffersLast(s)
  {
  }

  /** Feedback generations strictly increase along the log, up to the host's own. */
  ghost predicate Generations(s: Sys) {
    && (forall i, j :: 0 <= i < j < |s.back| && s.back[i].FormatFeedback? && s.back[j].FormatFeedback? ==>
          s.back[i].generation < s.back[j].generation)
    && (s.Live() ==> forall i :: 0 <= i < |s.back| && s.back[i].FormatFeedback? ==> 0 < s.back[i].generation <= s.H().feedbackGeneration)
  }

  lemma ActionGeneration(t: E.Table, a: E.Action)
    requires E.Apply(t, a).error.None? && !a.Create? && !a.Present?
    ensures var x := E.Apply(t, a);
      && (a.oid in x.table ==> a.oid in t && t[a.oid].state.feedbackGeneration <= x.table[a.oid].state.feedbackGeneration)
      && (x.record.Some? && x.record.value.FormatFeedback? ==>
            a.oid in t && a.oid in x.table && t[a.oid].state.feedbackGeneration < x.record.value.generation == x.table[a.oid].state.feedbackGeneration)
  {
    hide Task.PresentError, Task.DiscardError, Task.ReleaseError, Task.RegisterError, Task.UnregisterError, Task.AckError;
  }

  lemma ReceiptGeneration(t: E.Table, m: M.PhoneMsg, fence: bool, signal: bool, send: bool)
    ensures var x := Receive(t, m, fence, signal, send);
      && (m.oid in t && m.oid in x.table ==> x.table[m.oid].state.feedbackGeneration == t[m.oid].state.feedbackGeneration)
      && (m.oid !in t && m.oid in x.table ==> m.CreateTask?)
      && (x.record.Some? ==> x.record.value.BufferReleased?)
  {
    hide Task.AckError, Task.PresentError, Task.DiscardError;
  }

  lemma GenerationsGrow(s: Sys, t: Sys)
    requires Generations(s) && t.oid == s.oid && s.back <= t.back && |t.back| <= |s.back| + 1 && (t.Live() ==> s.Live() || s.back == [])
    requires s.Live() && t.Live() ==> s.H().feedbackGeneration <= t.H().feedbackGeneration
    requires |t.back| > |s.back| && t.back[|s.back|].FormatFeedback? ==>
      s.Live() && t.Live() && s.H().feedbackGeneration < t.back[|s.back|].generation == t.H().feedbackGeneration
    ensures Generations(t)
  {
  }

  lemma ActGenerations(s: Sys, a: E.Action)
    requires Generations(s) && Allowed(s, a) && ActHost(s, a).open
    ensures Generations(ActHost(s, a))
  {
    hide E.Apply, Advances, Generations;
    var t := ActHost(s, a);
    if a.oid != s.oid { E.OtherObjectsUntouched(s.host, a, s.oid); } else { ActionGeneration(s.host, a); }
    assert s.back <= t.back;
    GenerationsGrow(s, t);
  }

  lemma TakeGenerations(s: Sys, fence: bool, signal: bool, send: bool)
    requires Inv(s) && Generations(s) && s.taken < |s.sent|
    ensures Generations(TakeNext(s, fence, signal, send))
  {
    hide Serials, Acks, Points, Tokens, Covered, Metadata, Sizes, Receive, Phone.Valid, E.Valid, Generations;
    var m, t := s.sent[s.taken], TakeNext(s, fence, signal, send);
    ReceiptGeneration(s.host, m, fence, signal, send);
    assert s.back <= t.back;
    assert !s.Live() && m.CreateTask? ==> s.taken == 0 && s.back == [];
    hide Structure, Lifecycle;
    GenerationsGrow(s, t);
  }

  lemma StepGenerations(s: Sys, step: Step)
    requires Inv(s) && Generations(s) && Enabled(s, step) && Next(s, step).open
    ensures Generations(Next(s, step))
  {
    hide Inv, TakeNext, ActHost, Allowed, Apply, Look, Find, Settle, Settled, Connect, Dispatch, Announce;
    match step
    case HostTakes(fence, signal, send) => TakeGenerations(s, fence, signal, send);
    case HostActs(a) => ActGenerations(s, a);
    case _ =>
  }

  /** In every run each feedback the host sends is newer than all before it. */
  lemma {:induction false} FeedbackIsNumbered(states: seq<Sys>, steps: seq<Step>, j: nat)
    requires IsRun(states, steps) && j < |states| && states[j].open
    ensures Generations(states[j])
  {
    hide Inv, Lending, Next, Generations;
    if j == 0 {
      InitGenerations(states[0]);
    } else {
      assert Enabled(states[j - 1], steps[j - 1]);
      EnabledIsOpen(states[j - 1], steps[j - 1]);
      hide Enabled, Init;
      FeedbackIsNumbered(states, steps, j - 1);
      RunHolds(states, steps, j - 1);
      StepGenerations(states[j - 1], steps[j - 1]);
    }
  }

  lemma InitGenerations(s: Sys)
    requires Init(s)
    ensures Generations(s)
  {
  }

  // ------------------------------------------------------------------------------------
  // Android's formats

  /** The step applies a feedback record to the window. */
  ghost predicate Learns(s: Sys, step: Step) {
    && step.PumpApplies? && s.heard < |s.back| && s.back[s.heard].FormatFeedback?
    && s.back[s.heard].oid == s.B().oid && s.phone.window && !s.service.forgotten
  }

  /** How many records of the host there were up to the last feedback Android applied. */
  ghost function LearnedBy(states: seq<Sys>, steps: seq<Step>, j: nat): nat
    requires |states| == |steps| + 1 && j <= |steps|
  {
    if j == 0 then 0
    else if Learns(states[j - 1], steps[j - 1]) then states[j - 1].heard + 1
    else LearnedBy(states, steps, j - 1)
  }

  lemma MoveKeepsFormats(p: Phone, move: PhoneStep)
    requires !move.Heard?
    ensures Apply(p, move).phone.stream.feedback == p.stream.feedback
  {
    hide Cancel, SendFrame, Transport.Presentation.SubmitError;
    if move.Submitted? {
      CancelKeepsWindow(p, move.buffer.id);
      var rects := SubmitDamage(move.buffer, move.damage);
      if p.window && p.powered && p.stream.SubmitError(move.buffer, rects, true).None? {
        SubmitFacts(p.stream, move.buffer, rects);
        var frame := p.stream.nextFrame + 1;
        var after := SendFrame(p.channel, frame, move.buffer, rects, move.isOpaque, move.plan).0;
        CancelKeepsWindow(p.(channel := after, stream := p.stream.(nextFrame := frame)), move.buffer.id);
      }
    } else if move.Acquired? {
      AcquireKeepsWindow(p, move.lazy, move.send, move.cloned);
      hide Acquire;
    } else if move.Cancelled? {
      CancelKeepsWindow(p, move.id);
    }
  }

  lemma HearFormats(p: Phone, m: M.HostMsg)
    ensures Hear(p, m).phone.stream.feedback
         == if m.FormatFeedback? && m.oid == p.channel.binding.oid && p.window then set f | f in m.formats else p.stream.feedback
  {
  }

  lemma StepLearns(s: Sys, step: Step)
    requires Enabled(s, step)
    ensures var t := Next(s, step);
      t.phone.stream.feedback == if Learns(s, step) then set f | f in s.back[s.heard].formats else s.phone.stream.feedback
  {
    hide Apply, Hear, TakeNext, ActHost, Allowed, Settle, Announce;
    if step.PhoneMoves? { MoveKeepsFormats(s.phone, step.move); }
    if step.PumpApplies? { HearFormats(s.phone, s.back[s.heard]); }
    if step.HostTakes? { TakeKeepsPhone(s, step.fence, step.signal, step.send); }
    if step.HostActs? { ActKeepsPhone(s, step.action); }
  }

  lemma TakeKeepsPhone(s: Sys, fence: bool, signal: bool, send: bool)
    requires s.taken < |s.sent|
    ensures TakeNext(s, fence, signal, send).phone == s.phone
  {
    hide Receive;
  }

  lemma ActKeepsPhone(s: Sys, a: E.Action)
    ensures ActHost(s, a).phone == s.phone
  {
    hide E.Apply;
  }

  /** The logs only grow, and what a buffer identity stands for never changes. */
  ghost predicate Extends(s: Sys, t: Sys) {
    && s.sent <= t.sent && s.back <= t.back
    && forall b :: b in s.issued ==> b in t.issued && t.issued[b] == s.issued[b]
  }

  lemma StepExtends(s: Sys, step: Step)
    requires Enabled(s, step)
    ensures Extends(s, Next(s, step))
  {
    hide Apply, E.Apply, Receive, Advances, Look, Find, Settle, Settled, Connect, Dispatch, Announce;
  }

  lemma {:induction false} RunExtends(states: seq<Sys>, steps: seq<Step>, i: nat, j: nat)
    requires IsRun(states, steps) && i <= j < |states|
    ensures Extends(states[i], states[j])
    decreases j - i
  {
    hide Enabled, Next, Init;
    if i < j {
      RunExtends(states, steps, i, j - 1);
      assert Enabled(states[j - 1], steps[j - 1]) && states[j] == Next(states[j - 1], steps[j - 1]);
      StepExtends(states[j - 1], steps[j - 1]);
    }
  }

  /** In every run the formats Android submits by are exactly those of the last feedback it
      applied. */
  lemma {:induction false} AndroidUsesWhatItHeard(states: seq<Sys>, steps: seq<Step>, j: nat)
    requires IsRun(states, steps) && j < |states|
    ensures LearnedBy(states, steps, j) <= |states[j].back|
    ensures states[j].phone.stream.feedback == LastFormats(states[j].back[..LearnedBy(states, steps, j)])
  {
    hide Next, Enabled, Init;
    if j == 0 {
      InitFormats(states[0]);
    } else {
      var s, t, step := states[j - 1], states[j], steps[j - 1];
      assert Enabled(s, step) && t == Next(s, step);
      AndroidUsesWhatItHeard(states, steps, j - 1);
      StepLearns(s, step);
      StepExtends(s, step);
      hide Extends;
      assert s.back <= t.back by { ExtendsBack(s, t); }
      if Learns(s, step) {
        FormatsAppend(t.back[..s.heard], t.back[s.heard]);
        assert t.back[..s.heard + 1] == t.back[..s.heard] + [t.back[s.heard]];
      } else {
        var n := LearnedBy(states, steps, j - 1);
        assert t.back[..n] == s.back[..n];
      }
    }
  }

  lemma ExtendsBack(s: Sys, t: Sys)
    requires Extends(s, t)
    ensures s.back <= t.back
  {
  }

  lemma InitFormats(s: Sys)
    requires Init(s)
    ensures s.back == [] && s.phone.stream.feedback == {}
  {
  }

  // ------------------------------------------------------------------------------------
  // A refused format

  /** Step `i` puts the frame on the wire as record `k`. */
  ghost predicate SubmittedAs(states: seq<Sys>, steps: seq<Step>, i: nat, k: nat) {
    && IsRun(states, steps) && i < |steps| && steps[i].PhoneMoves? && steps[i].move.Submitted?
    && |states[i].sent| <= k < |states[i + 1].sent| && states[i + 1].sent[k].Present?
  }

  predicate RefusesFormat(s: Sys, k: nat) {
    && s.Live() && k < |s.sent| && s.sent[k].Present?
    && s.H().PresentError(s.oid, s.sent[k].frame, s.sent[k].serial) == Some(UnsupportedFormat)
  }

  lemma RefusedFormat(s: Sys, k: nat)
    requires RefusesFormat(s, k)
    ensures var b := s.sent[k].frame.buffer; b in s.H().buffers && s.H().buffers[b].format !in s.H().feedback
  {
  }

  /** A frame is refused for its format only if a feedback left the host after the last one
      Android had applied when it submitted the frame. */
  lemma UnsupportedFormatNeedsNews(states: seq<Sys>, steps: seq<Step>, i: nat, j: nat, k: nat)
    requires SubmittedAs(states, steps, i, k) && i < j < |states|
    requires states[j].open && RefusesFormat(states[j], k)
    ensures exists x :: LearnedBy(states, steps, i) <= x < |states[j].back| && states[j].back[x].FormatFeedback?
  {
    var s, t, n := states[i], states[j], LearnedBy(states, steps, i);
    hide Inv, Lending, Next, Enabled, Init, LearnedBy;
    RefusedFormat(t, k);
    hide RefusesFormat;
    if forall x :: n <= x < |t.back| ==> !t.back[x].FormatFeedback? {
      RunExtends(states, steps, i, j);
      RunExtends(states, steps, i + 1, j);
      AndroidUsesWhatItHeard(states, steps, i);
      HostOffersWhatItSaid(states, steps, j);
      FormatsOfPrefix(t.back, n);
      assert t.back[..n] == s.back[..n];
      assert Enabled(s, steps[i]) && states[i + 1] == Next(s, steps[i]);
      EnabledIsOpen(s, steps[i]);
      RunHolds(states, steps, i);
      RunHolds(states, steps, j);
      SubmittedFormat(s, steps[i].move, k);
      SameBuffer(s, t, states[i + 1].sent[k].frame.buffer);
    }
  }

  lemma SubmittedFormat(s: Sys, move: PhoneStep, k: nat)
    requires Inv(s) && Enabled(s, PhoneMoves(move)) && move.Submitted?
    requires var t := Next(s, PhoneMoves(move)); |s.sent| <= k < |t.sent| && t.sent[k].Present?
    ensures var f := Next(s, PhoneMoves(move)).sent[k].frame;
      && f.buffer == move.buffer.id && move.buffer.format in s.phone.stream.feedback
      && move.buffer.id in s.issued && s.issued[move.buffer.id] == move.buffer
  {
    hide Structure, Lifecycle, Serials, Acks, Points, Tokens, Covered, Sizes, Submit, Transport.Presentation.SubmitError, SubmitDamage;
    var p, b := s.phone, move.buffer;
    SubmitOutcome(p, b, move.damage, move.isOpaque, move.plan);
    SubmitWire(p, b, move.damage, move.isOpaque, move.plan);
    var r := Submit(p, b, move.damage, move.isOpaque, move.plan);
    assert Next(s, PhoneMoves(move)).sent == s.sent + r.sent;
    assert r.sent[k - |s.sent|].Present?;
    assert r.error.None?;
    SubmitFacts(p.stream, b, SubmitDamage(b, move.damage));
  }

  lemma SameBuffer(s: Sys, t: Sys, b: u64)
    requires Inv(t) && Extends(s, t) && b in s.issued && t.Live() && b in t.H().buffers
    ensures t.H().buffers[b] == s.issued[b]
  {
    hide Structure, Lifecycle, Serials, Acks, Points, Tokens, Covered, Sizes;
    HostPointsOrdered(t);
    BufferHasItsId(t.H(), b);
    hide Task.Valid;
  }

  lemma BufferHasItsId(h: Task, b: u64)
    requires h.Valid() && b in h.buffers
    ensures h.buffers[b].id == b
  {
  }
}
