/**
 One direction of the message unit as interleaved steps of a writer and a reader
 over one-word slots with full/empty flags. Driver sending: the driver writes and
 the peer reads. Driver receiving: the peer writes and the driver reads, looking
 again after each read and taking whatever a refill has put into the slot.

 Words are identified by their position in the stream, so that losing, repeating
 or reordering one is visible whatever the words are.
 */
module MailboxProtocol {

  import opened Arithmetic

  import opened Wrappers

  // plan[p] is the slot of word p, the same for both sides; rereads is how often
  // the reader looks again after a read.
  datatype Channel = Channel(slots: nat, plan: seq<nat>, rereads: nat)

  datatype Writer = Polling | MayWrite

  datatype Reader =
    | Waiting
    | Ready                          // saw the slot full
    | Looking(word: nat, left: nat)  // has read, about to look again
    | Again(word: nat, left: nat)    // saw it full again

  datatype State = State(
    slot: seq<Option<nat>>, sent: nat, writer: Writer,
    next: nat, reader: Reader, got: seq<nat>, overwritten: seq<nat>)

  datatype Action = WriterPolls | WriterWrites | ReaderPolls | ReaderReads | ReaderLooks | ReaderRereads

  ghost predicate ChannelOk(c: Channel) {
    forall p :: 0 <= p < |c.plan| ==> c.plan[p] < c.slots
  }

  function Initial(c: Channel): State {
    State(seq(c.slots, i => None), 0, Polling, 0, Waiting, [], [])
  }

  ghost predicate Shape(c: Channel, s: State) {
    && ChannelOk(c) && |s.slot| == c.slots
    && s.sent <= |c.plan| && s.next <= |c.plan|
    && (s.writer.MayWrite? ==> s.sent < |c.plan|)
    && (!s.reader.Waiting? ==> s.next < |c.plan|)
    && (s.reader.Looking? || s.reader.Again? ==> s.reader.left <= c.rereads)
    && (s.reader.Again? ==> s.reader.left > 0)
  }

  // Polls of status flags may find the slot not ready and change nothing.
  ghost predicate Enabled(c: Channel, s: State, a: Action)
    requires Shape(c, s)
  {
    match a
    case WriterPolls => s.writer.Polling? && s.sent < |c.plan|
    case WriterWrites => s.writer.MayWrite?
    case ReaderPolls => s.reader.Waiting? && s.next < |c.plan|
    case ReaderReads => s.reader.Ready? && s.slot[c.plan[s.next]].Some?
    case ReaderLooks => s.reader.Looking?
    case ReaderRereads => s.reader.Again? && s.slot[c.plan[s.next]].Some?
  }

  function Next(c: Channel, s: State, a: Action): State
    requires Shape(c, s) && Enabled(c, s, a)
  {
    match a
    case WriterPolls =>
      if s.slot[c.plan[s.sent]].None? then s.(writer := MayWrite) else s
    case WriterWrites =>
      s.(slot := s.slot[c.plan[s.sent] := Some(s.sent)], sent := s.sent + 1, writer := Polling)
    case ReaderPolls =>
      if s.slot[c.plan[s.next]].Some? then s.(reader := Ready) else s
    case ReaderReads =>
      s.(slot := s.slot[c.plan[s.next] := None],
         reader := Looking(s.slot[c.plan[s.next]].value, c.rereads))
    case ReaderLooks =>
      if s.reader.left > 0 && s.slot[c.plan[s.next]].Some? then
        s.(reader := Again(s.reader.word, s.reader.left))
      else
        s.(got := s.got + [s.reader.word], next := s.next + 1, reader := Waiting)
    case ReaderRereads =>
      s.(slot := s.slot[c.plan[s.next] := None],
         overwritten := s.overwritten + [s.reader.word],
         reader := Looking(s.slot[c.plan[s.next]].value, s.reader.left - 1))
  }

  // The rule a well-behaved writer follows: a slot is refilled only after the
  // reader has left it.
  ghost predicate Polite(c: Channel, s: State, a: Action)
    requires Shape(c, s)
  {
    a == WriterWrites && s.writer.MayWrite? && (s.reader.Looking? || s.reader.Again?) ==>
      c.plan[s.sent] != c.plan[s.next]
  }

  ghost predicate IsStep(c: Channel, s: State, a: Action, s': State) {
    Shape(c, s) && Enabled(c, s, a) && s' == Next(c, s, a)
  }

  ghost predicate IsRun(c: Channel, run: seq<State>, actions: seq<Action>) {
    && ChannelOk(c) && |run| == |actions| + 1 && run[0] == Initial(c)
    && forall i :: 0 <= i < |actions| ==> IsStep(c, run[i], actions[i], run[i + 1])
  }

  ghost predicate PoliteRun(c: Channel, run: seq<State>, actions: seq<Action>)
    requires IsRun(c, run, actions)
  {
    forall i :: 0 <= i < |actions| ==>
      IsStep(c, run[i], actions[i], run[i + 1]) && Polite(c, run[i], actions[i])
  }

  /*
   * While nothing has been overwritten
   */

  // Words taken out of their slots so far.
  function Consumed(s: State): nat {
    if s.reader.Looking? || s.reader.Again? then s.next + 1 else s.next
  }

  ghost predicate InOrder(s: State) {
    |s.got| == s.next && forall k :: 0 <= k < |s.got| ==> s.got[k] == k
  }

  // Exactly the words sent and not yet consumed are in the slots, each in its own.
  ghost predicate Inv(c: Channel, s: State) {
    && Shape(c, s) && Consumed(s) <= s.sent
    && (forall p :: Consumed(s) <= p < s.sent ==> s.slot[c.plan[p]] == Some(p))
    && (forall i :: 0 <= i < c.slots && s.slot[i].Some? ==>
          Consumed(s) <= s.slot[i].value < s.sent && c.plan[s.slot[i].value] == i)
    && (s.writer.MayWrite? ==> s.slot[c.plan[s.sent]].None?)
    && (s.reader.Ready? ==> s.slot[c.plan[s.next]].Some?)
    && (s.reader.Again? ==> s.slot[c.plan[s.next]].Some?)
    && (s.reader.Looking? || s.reader.Again? ==> s.reader.word == s.next)
    && InOrder(s)
  }

  lemma InitialInv(c: Channel)
    requires ChannelOk(c)
    ensures Inv(c, Initial(c))
  {
  }

  lemma StepKeeps(c: Channel, s: State, a: Action)
    requires Inv(c, s) && Enabled(c, s, a) && a != ReaderRereads
    ensures Inv(c, Next(c, s, a))
  {
    var s' := Next(c, s, a);
    match a
    case ReaderReads =>
      assert s.slot[c.plan[s.next]].Some?;
      assert s.slot[c.plan[s.next]] == Some(s.next);
    case _ =>
  }

  // Once a word has been overwritten the order is lost for good.
  ghost predicate Broken(c: Channel, s: State) {
    && Shape(c, s) && |s.got| == s.next
    && (s.writer.MayWrite? ==> s.slot[c.plan[s.sent]].None?)
    && ((exists k :: 0 <= k < |s.got| && s.got[k] != k)
        || ((s.reader.Looking? || s.reader.Again?) && s.reader.word > s.next && s.sent > s.next
            && forall i :: 0 <= i < c.slots && s.slot[i].Some? ==> s.slot[i].value > s.next))
  }

  lemma RereadBreaks(c: Channel, s: State)
    requires Inv(c, s) && Enabled(c, s, ReaderRereads)
    ensures Broken(c, Next(c, s, ReaderRereads))
  {
  }

  lemma BrokenStays(c: Channel, s: State, a: Action)
    requires Broken(c, s) && Enabled(c, s, a)
    ensures Broken(c, Next(c, s, a))
  {
    var s' := Next(c, s, a);
    if k :| 0 <= k < |s.got| && s.got[k] != k {
      assert s'.got[k] != k;
    } else if a == ReaderLooks && s'.reader.Waiting? {
      assert s'.got[s.next] != s.next;
    }
  }

  lemma {:induction false} RunStatus(c: Channel, run: seq<State>, actions: seq<Action>, i: nat)
    requires IsRun(c, run, actions) && i < |run|
    ensures Shape(c, run[i])
    ensures run[i].overwritten == [] ==> Inv(c, run[i])
    ensures run[i].overwritten != [] ==> Broken(c, run[i])
    decreases i
  {
    if i == 0 {
      InitialInv(c);
    } else {
      var s, a := run[i - 1], actions[i - 1];
      assert IsStep(c, s, a, run[i - 1 + 1]);
      RunStatus(c, run, actions, i - 1);
      if s.overwritten != [] {
        BrokenStays(c, s, a);
      } else if a == ReaderRereads {
        RereadBreaks(c, s);
      } else {
        StepKeeps(c, s, a);
      }
    }
  }

  /*
   * Main results
   */

  // A slot is never written while it is full, whatever the reader has lost.
  lemma NoOverwrite(c: Channel, run: seq<State>, actions: seq<Action>, i: nat)
    requires IsRun(c, run, actions) && i < |actions| && actions[i] == WriterWrites
    ensures run[i].sent < |c.plan| && c.plan[run[i].sent] < |run[i].slot|
    ensures run[i].slot[c.plan[run[i].sent]].None?
  {
    assert IsStep(c, run[i], actions[i], run[i + 1]);
    RunStatus(c, run, actions, i);
  }

  // The reader has found nothing to take a second time.
  ghost predicate Quiet(c: Channel, s: State) {
    && Shape(c, s) && s.overwritten == [] && !s.reader.Again?
    && (s.reader.Looking? ==> s.reader.left == 0 || s.slot[c.plan[s.next]].None?)
  }

  lemma {:induction false} PoliteNeverOverwrites(c: Channel, run: seq<State>, actions: seq<Action>, i: nat)
    requires IsRun(c, run, actions) && i < |run|
    requires PoliteRun(c, run, actions) || c.rereads == 0
    ensures Quiet(c, run[i])
    ensures c.rereads == 0 && run[i].reader.Looking? ==> run[i].reader.left == 0
    ensures c.rereads > 0 && run[i].reader.Looking? ==> run[i].slot[c.plan[run[i].next]].None?
    decreases i
  {
    if i > 0 {
      assert IsStep(c, run[i - 1], actions[i - 1], run[i - 1 + 1]);
      PoliteNeverOverwrites(c, run, actions, i - 1);
      RunStatus(c, run, actions, i - 1);
      assert Polite(c, run[i - 1], actions[i - 1]) || c.rereads == 0;
    }
  }

  // A reader that looks again and a polite writer, or a reader that does not look
  // again and any writer: the reader's words are the stream's prefix, always.
  lemma PolitePreservesOrder(c: Channel, run: seq<State>, actions: seq<Action>, i: nat)
    requires IsRun(c, run, actions) && i < |run|
    requires PoliteRun(c, run, actions) || c.rereads == 0
    ensures InOrder(run[i]) && Inv(c, run[i])
  {
    PoliteNeverOverwrites(c, run, actions, i);
    RunStatus(c, run, actions, i);
  }

  // The steps that get somewhere.
  ghost predicate Productive(c: Channel, s: State, a: Action)
    requires Shape(c, s)
  {
    Enabled(c, s, a) && Next(c, s, a) != s
  }

  // The pair is never stuck before the last word is read.
  lemma NeverStuck(c: Channel, s: State)
    requires Inv(c, s) && s.next < |c.plan|
    ensures exists a :: Productive(c, s, a)
  {
    match s.reader
    case Waiting =>
      if s.sent > s.next {
        assert Productive(c, s, ReaderPolls);
      } else if s.writer.Polling? {
        assert Productive(c, s, WriterPolls);
      } else {
        assert Productive(c, s, WriterWrites);
      }
    case Ready => assert Productive(c, s, ReaderReads);
    case Looking(_, _) => assert Productive(c, s, ReaderLooks);
    case Again(_, _) => assert Productive(c, s, ReaderRereads);
  }

  // Productive steps left: a bound that every one of them lowers.
  function Remaining(c: Channel, s: State): int
    requires Shape(c, s)
  {
    var word := 2 * c.rereads + 4;
    var done := match s.reader
      case Waiting => 0
      case Ready => 1
      case Looking(_, left) => 2 + 2 * (c.rereads - left)
      case Again(_, left) => 3 + 2 * (c.rereads - left);
    2 * (|c.plan| - s.sent) - (if s.writer.MayWrite? then 1 else 0) + (|c.plan| - s.next) * word - done
  }

  // Every step that gets somewhere lowers it, so no run has infinitely many.
  lemma ProductiveStepsRunOut(c: Channel, s: State, a: Action)
    requires Shape(c, s) && Productive(c, s, a)
    ensures Shape(c, Next(c, s, a)) && 0 <= Remaining(c, Next(c, s, a)) < Remaining(c, s)
  {
    var n := Next(c, s, a);
    Successor(|c.plan| - s.next - (if s.next < |c.plan| then 1 else 0), 2 * c.rereads + 4);
    RemainingIsNatural(c, n);
  }

  lemma RemainingIsNatural(c: Channel, s: State)
    requires Shape(c, s)
    ensures Remaining(c, s) >= 0
  {
    if s.next < |c.plan| {
      Successor(|c.plan| - s.next - 1, 2 * c.rereads + 4);
    }
  }

  /*
   * Where the words are
   */

  function Filled(slot: seq<Option<nat>>): nat {
    if slot == [] then 0
    else Filled(slot[..|slot| - 1]) + if slot[|slot| - 1].Some? then 1 else 0
  }

  lemma {:induction false} FilledAfter(slot: seq<Option<nat>>, i: nat, x: Option<nat>)
    requires i < |slot|
    ensures Filled(slot[i := x]) == Filled(slot) - (if slot[i].Some? then 1 else 0) + (if x.Some? then 1 else 0)
    decreases |slot|
  {
    var front := slot[..|slot| - 1];
    if i < |slot| - 1 {
      assert slot[i := x][..|slot| - 1] == front[i := x];
      FilledAfter(front, i, x);
    } else {
      assert slot[i := x][..|slot| - 1] == front;
    }
  }

  lemma {:induction false} NoneFilled(slot: seq<Option<nat>>)
    requires forall i :: 0 <= i < |slot| ==> slot[i].None?
    ensures Filled(slot) == 0
    decreases |slot|
  {
    if slot != [] {
      NoneFilled(slot[..|slot| - 1]);
    }
  }

  // In hand: read, but not yet handed over.
  function InHand(s: State): nat {
    if s.reader.Looking? || s.reader.Again? then 1 else 0
  }

  // Every word sent is handed over, overwritten, in hand or in a slot, and in one
  // of these places only: for any writer, whatever is lost.
  ghost predicate Accounted(s: State) {
    s.sent == s.next + |s.overwritten| + InHand(s) + Filled(s.slot)
  }

  lemma StepAccounts(c: Channel, s: State, a: Action)
    requires Shape(c, s) && Enabled(c, s, a) && Accounted(s)
    requires s.writer.MayWrite? ==> s.slot[c.plan[s.sent]].None?
    ensures Accounted(Next(c, s, a))
  {
    if a == WriterWrites {
      FilledAfter(s.slot, c.plan[s.sent], Some(s.sent));
    } else if a == ReaderReads || a == ReaderRereads {
      FilledAfter(s.slot, c.plan[s.next], None);
    }
  }

  lemma {:induction false} WordsConserved(c: Channel, run: seq<State>, actions: seq<Action>, i: nat)
    requires IsRun(c, run, actions) && i < |run|
    ensures Accounted(run[i])
    decreases i
  {
    if i == 0 {
      NoneFilled(run[0].slot);
    } else {
      assert IsStep(c, run[i - 1], actions[i - 1], run[i - 1 + 1]);
      WordsConserved(c, run, actions, i - 1);
      RunStatus(c, run, actions, i - 1);
      StepAccounts(c, run[i - 1], actions[i - 1]);
    }
  }

  // A pair that is not stuck before the last word is read is one that has lost
  // none: otherwise the reader never gets all its words, however long it waits.
  lemma LostWordStarvesReader(c: Channel, run: seq<State>, actions: seq<Action>, i: nat)
    requires IsRun(c, run, actions) && i < |run|
    ensures run[i].overwritten != [] ==> run[i].next < |c.plan|
    ensures run[i].overwritten == [] && run[i].next < |c.plan| ==>
      Shape(c, run[i]) && exists a :: Productive(c, run[i], a)
  {
    RunStatus(c, run, actions, i);
    WordsConserved(c, run, actions, i);
    if run[i].overwritten == [] && run[i].next < |c.plan| {
      NeverStuck(c, run[i]);
    }
  }

  /*
   * Sending messages
   */

  function Range(n: nat): seq<nat> {
    seq(n, i => i)
  }

  // Every message starts again at slot 0.
  function SendPlan(messages: seq<seq<nat>>): seq<nat> {
    if messages == [] then []
    else SendPlan(messages[..|messages| - 1]) + Range(|messages[|messages| - 1]|)
  }

  function Concatenated(messages: seq<seq<nat>>): seq<nat> {
    if messages == [] then []
    else Concatenated(messages[..|messages| - 1]) + messages[|messages| - 1]
  }

  lemma {:induction false} SendPlanFits(messages: seq<seq<nat>>, slots: nat)
    requires forall m :: 0 <= m < |messages| ==> |messages[m]| <= slots
    ensures |SendPlan(messages)| == |Concatenated(messages)|
    ensures forall p :: 0 <= p < |SendPlan(messages)| ==> SendPlan(messages)[p] < slots
    decreases |messages|
  {
    if messages != [] {
      SendPlanFits(messages[..|messages| - 1], slots);
    }
  }

  // The words a reader holds.
  function Words(stream: seq<nat>, got: seq<nat>): seq<nat>
    requires forall k :: 0 <= k < |got| ==> got[k] < |stream|
  {
    seq(|got|, k requires 0 <= k < |got| => stream[got[k]])
  }

  // Any sequence of messages the driver accepts arrives as the concatenation of
  // the buffers: a prefix of it at all times, all of it at the end.
  lemma MessagesArrive(messages: seq<seq<nat>>, slots: nat, run: seq<State>, actions: seq<Action>, i: nat)
    requires forall m :: 0 <= m < |messages| ==> |messages[m]| <= slots
    requires IsRun(Channel(slots, SendPlan(messages), 0), run, actions) && i < |run|
    ensures var stream := Concatenated(messages);
            && (forall k :: 0 <= k < |run[i].got| ==> run[i].got[k] < |stream|)
            && Words(stream, run[i].got) <= stream
            && (run[i].next == |stream| ==> Words(stream, run[i].got) == stream)
  {
    SendPlanFits(messages, slots);
    PolitePreservesOrder(Channel(slots, SendPlan(messages), 0), run, actions, i);
  }

  /*
   * Receiving
   */

  // The words of one message, round-robin from slot 0.
  function RoundRobin(words: nat, slots: nat): (plan: seq<nat>)
    requires slots > 0
    ensures |plan| == words
    ensures forall p :: 0 <= p < words ==> plan[p] == p % slots < slots
  {
    seq(words, p => p % slots)
  }

  // Every message starts again at slot 0.
  function ReceivePlan(messages: seq<seq<nat>>, slots: nat): (plan: seq<nat>)
    requires slots > 0
    ensures |plan| == |Concatenated(messages)|
    ensures forall p :: 0 <= p < |plan| ==> plan[p] < slots
  {
    if messages == [] then []
    else ReceivePlan(messages[..|messages| - 1], slots) + RoundRobin(|messages[|messages| - 1]|, slots)
  }

  // With a polite peer any sequence of messages of any lengths is received as their
  // concatenation: a prefix of it at all times, all of it at the end.
  lemma MessagesReceived(messages: seq<seq<nat>>, slots: nat, rereads: nat,
                         run: seq<State>, actions: seq<Action>, i: nat)
    requires slots > 0
    requires IsRun(Channel(slots, ReceivePlan(messages, slots), rereads), run, actions) && i < |run|
    requires PoliteRun(Channel(slots, ReceivePlan(messages, slots), rereads), run, actions)
    ensures var stream := Concatenated(messages);
            && run[i].got == Range(run[i].next) && (forall k :: 0 <= k < |run[i].got| ==> run[i].got[k] < |stream|)
            && Words(stream, run[i].got) <= stream
            && (run[i].next == |stream| ==> Words(stream, run[i].got) == stream)
  {
    PolitePreservesOrder(Channel(slots, ReceivePlan(messages, slots), rereads), run, actions, i);
  }

  /*
   * Receiving from any peer
   */

  // In order for every peer, polite or not.
  ghost predicate OrderKept(c: Channel) {
    forall run: seq<State>, actions: seq<Action>, i: nat ::
      IsRun(c, run, actions) && i < |run| ==> InOrder(run[i])
  }

  ghost predicate Distinct(plan: seq<nat>) {
    forall p, q :: 0 <= p < q < |plan| ==> plan[p] != plan[q]
  }

  // A reader is safe with every peer exactly if it never looks again or no two words
  // of the whole stream share a slot.
  lemma OrderKeptIff(c: Channel)
    requires ChannelOk(c)
    ensures OrderKept(c) <==> c.rereads == 0 || Distinct(c.plan)
  {
    if c.rereads == 0 || Distinct(c.plan) {
      forall run: seq<State>, actions: seq<Action>, i: nat | IsRun(c, run, actions) && i < |run|
        ensures InOrder(run[i])
      {
        KeptInOneLap(c, run, actions, i);
      }
    } else {
      var p, q := FirstRepetition(c.plan);
      var run, actions := ImpolitePeerLosesWord(c, p, q);
      assert run[|run| - 1].got[p] == q;
      assert !InOrder(run[|run| - 1]);
    }
  }

  lemma KeptInOneLap(c: Channel, run: seq<State>, actions: seq<Action>, i: nat)
    requires IsRun(c, run, actions) && i < |run|
    requires c.rereads == 0 || Distinct(c.plan)
    ensures InOrder(run[i])
  {
    if c.rereads == 0 {
      PolitePreservesOrder(c, run, actions, i);
    } else {
      OneLapNeverOverwrites(c, run, actions, i);
      RunStatus(c, run, actions, i);
    }
  }

  // While every word has a slot of its own, no slot is ever full again.
  lemma {:induction false} OneLapNeverOverwrites(c: Channel, run: seq<State>, actions: seq<Action>, i: nat)
    requires IsRun(c, run, actions) && i < |run|
    requires Distinct(c.plan)
    ensures run[i].overwritten == []
    decreases i
  {
    if i > 0 {
      assert IsStep(c, run[i - 1], actions[i - 1], run[i - 1 + 1]);
      OneLapNeverOverwrites(c, run, actions, i - 1);
      RunStatus(c, run, actions, i - 1);
    }
  }

  // The first word whose slot was used before, and the word that used it.
  lemma {:induction false} FirstRepetition(plan: seq<nat>) returns (p: nat, q: nat)
    requires !Distinct(plan)
    ensures p < q < |plan| && plan[p] == plan[q] && Distinct(plan[..q])
    decreases |plan|
  {
    var front := plan[..|plan| - 1];
    if Distinct(front) {
      q := |plan| - 1;
      assert forall i :: 0 <= i < q ==> front[i] == plan[i];
      var a, b :| 0 <= a < b < |plan| && plan[a] == plan[b];
      p := a;
    } else {
      p, q := FirstRepetition(front);
      assert front[..q] == plan[..q];
    }
  }

  // Otherwise a word is lost: a peer that refills the first repeated slot as soon
  // as it is empty replaces word p by word q.
  lemma ImpolitePeerLosesWord(c: Channel, p: nat, q: nat) returns (run: seq<State>, actions: seq<Action>)
    requires ChannelOk(c) && c.rereads > 0
    requires p < q < |c.plan| && c.plan[p] == c.plan[q] && Distinct(c.plan[..q])
    ensures IsRun(c, run, actions) && |run| > 0
    ensures run[|run| - 1].got == Range(p) + [q]
  {
    run, actions := Drained(c, q, p);
    run, actions := Extended(c, run, actions, ReaderPolls);
    run, actions := Extended(c, run, actions, ReaderReads);
    run, actions := Extended(c, run, actions, WriterPolls);
    run, actions := Extended(c, run, actions, WriterWrites);
    run, actions := Extended(c, run, actions, ReaderLooks);
    run, actions := Extended(c, run, actions, ReaderRereads);
    run, actions := Extended(c, run, actions, ReaderLooks);
  }

  // The first k words sent, the first r of them read in order, both sides at rest.
  ghost predicate Reached(c: Channel, run: seq<State>, actions: seq<Action>, k: nat, r: nat) {
    && IsRun(c, run, actions)
    && var s := run[|run| - 1];
       Inv(c, s) && s.sent == k && s.next == r && s.writer.Polling? && s.reader.Waiting? && s.got == Range(r)
  }

  lemma {:induction false} Drained(c: Channel, k: nat, r: nat) returns (run: seq<State>, actions: seq<Action>)
    requires ChannelOk(c) && r <= k <= |c.plan| && Distinct(c.plan[..k])
    ensures Reached(c, run, actions, k, r)
    decreases r
  {
    if r == 0 {
      run, actions := FilledUp(c, k);
    } else {
      run, actions := Drained(c, k, r - 1);
      var s := run[|run| - 1];
      assert s.slot[c.plan[r - 1]] == Some(r - 1);
      run, actions := Kept(c, run, actions, ReaderPolls);
      run, actions := Kept(c, run, actions, ReaderReads);
      run, actions := Kept(c, run, actions, ReaderLooks);
      assert Range(r) == Range(r - 1) + [r - 1];
    }
  }

  lemma {:induction false} FilledUp(c: Channel, k: nat) returns (run: seq<State>, actions: seq<Action>)
    requires ChannelOk(c) && k <= |c.plan| && Distinct(c.plan[..k])
    ensures Reached(c, run, actions, k, 0)
    decreases k
  {
    if k == 0 {
      run, actions := [Initial(c)], [];
      InitialInv(c);
    } else {
      assert c.plan[..k][..k - 1] == c.plan[..k - 1];
      run, actions := FilledUp(c, k - 1);
      var s := run[|run| - 1];
      forall v | 0 <= v < k - 1 ensures c.plan[v] != c.plan[k - 1] {
        assert c.plan[..k][v] != c.plan[..k][k - 1];
      }
      assert s.slot[c.plan[k - 1]].None?;
      run, actions := Kept(c, run, actions, WriterPolls);
      run, actions := Kept(c, run, actions, WriterWrites);
    }
  }

  // A run can be extended by any enabled action.
  lemma Extended(c: Channel, run: seq<State>, actions: seq<Action>, a: Action)
    returns (run': seq<State>, actions': seq<Action>)
    requires IsRun(c, run, actions) && Shape(c, run[|run| - 1]) && Enabled(c, run[|run| - 1], a)
    ensures IsRun(c, run', actions') && |run'| > 0
    ensures run'[|run'| - 1] == Next(c, run[|run| - 1], a)
  {
    run', actions' := run + [Next(c, run[|run| - 1], a)], actions + [a];
    forall i | 0 <= i < |actions'|
      ensures IsStep(c, run'[i], actions'[i], run'[i + 1])
    {
      if i < |actions| {
        assert IsStep(c, run[i], actions[i], run[i + 1]);
      }
    }
  }

  lemma Kept(c: Channel, run: seq<State>, actions: seq<Action>, a: Action)
    returns (run': seq<State>, actions': seq<Action>)
    requires IsRun(c, run, actions) && Inv(c, run[|run| - 1]) && Enabled(c, run[|run| - 1], a) && a != ReaderRereads
    ensures IsRun(c, run', actions') && |run'| > 0 && Inv(c, run'[|run'| - 1])
    ensures run'[|run'| - 1] == Next(c, run[|run| - 1], a)
  {
    StepKeeps(c, run[|run| - 1], a);
    run', actions' := Extended(c, run, actions, a);
  }

  /*
   * Which messages are safe with any peer
   */

  // All words are in one message of at most one lap.
  predicate OneShortMessage(messages: seq<seq<nat>>, slots: nat) {
    && (forall m :: 0 <= m < |messages| ==> |messages[m]| <= slots)
    && (forall m, n :: 0 <= m < n < |messages| ==> messages[m] == [] || messages[n] == [])
  }

  // A session of receiving is safe with every peer exactly if the driver never looks
  // again or all words of the session are in one message of at most one lap.
  lemma ReceivingSafeIff(messages: seq<seq<nat>>, slots: nat, rereads: nat)
    requires slots > 0
    ensures OrderKept(Channel(slots, ReceivePlan(messages, slots), rereads))
       <==> rereads == 0 || OneShortMessage(messages, slots)
  {
    OrderKeptIff(Channel(slots, ReceivePlan(messages, slots), rereads));
    if OneShortMessage(messages, slots) {
      ShortIsDistinct(messages, slots);
    } else {
      LongRepeats(messages, slots);
    }
  }

  lemma {:induction false} ShortIsDistinct(messages: seq<seq<nat>>, slots: nat)
    requires slots > 0 && OneShortMessage(messages, slots)
    ensures Distinct(ReceivePlan(messages, slots))
    decreases |messages|
  {
    if messages != [] {
      var front, last := messages[..|messages| - 1], messages[|messages| - 1];
      ShortIsDistinct(front, slots);
      if last == [] {
        assert ReceivePlan(messages, slots) == ReceivePlan(front, slots);
      } else {
        NoWords(front, slots);
        assert ReceivePlan(messages, slots) == RoundRobin(|last|, slots);
        OneLap(|last|, slots);
      }
    }
  }

  lemma {:induction false} NoWords(messages: seq<seq<nat>>, slots: nat)
    requires slots > 0 && forall m :: 0 <= m < |messages| ==> messages[m] == []
    ensures ReceivePlan(messages, slots) == []
    decreases |messages|
  {
    if messages != [] {
      NoWords(messages[..|messages| - 1], slots);
    }
  }

  lemma OneLap(words: nat, slots: nat)
    requires words <= slots && slots > 0
    ensures Distinct(RoundRobin(words, slots))
  {
    forall p: nat | p < words ensures RoundRobin(words, slots)[p] == p {
      DivMod(p, slots, 0, p);
    }
  }

  // Where message m starts in the stream.
  function Offset(messages: seq<seq<nat>>, m: nat): nat
    requires m <= |messages|
  {
    |Concatenated(messages[..m])|
  }

  lemma {:induction false} PlanAt(messages: seq<seq<nat>>, slots: nat, m: nat)
    requires slots > 0 && m < |messages|
    ensures Offset(messages, m) + |messages[m]| == Offset(messages, m + 1) <= |ReceivePlan(messages, slots)|
    ensures ReceivePlan(messages, slots)[Offset(messages, m)..Offset(messages, m + 1)]
         == RoundRobin(|messages[m]|, slots)
    decreases |messages|
  {
    var front := messages[..|messages| - 1];
    if m < |messages| - 1 {
      PlanAt(front, slots, m);
      assert front[..m] == messages[..m] && front[..m + 1] == messages[..m + 1];
    } else {
      assert messages[..m] == front && messages[..m + 1] == messages;
    }
  }

  lemma {:induction false} OffsetsGrow(messages: seq<seq<nat>>, slots: nat, m: nat, n: nat)
    requires slots > 0 && m <= n <= |messages|
    ensures Offset(messages, m) <= Offset(messages, n)
    decreases n
  {
    if m < n {
      PlanAt(messages, slots, n - 1);
      OffsetsGrow(messages, slots, m, n - 1);
    }
  }

  // Word j of message m.
  lemma WordAt(messages: seq<seq<nat>>, slots: nat, m: nat, j: nat)
    requires slots > 0 && m < |messages| && j < |messages[m]|
    ensures Offset(messages, m) + j < |ReceivePlan(messages, slots)|
    ensures ReceivePlan(messages, slots)[Offset(messages, m) + j] == j % slots
  {
    PlanAt(messages, slots, m);
    var part := ReceivePlan(messages, slots)[Offset(messages, m)..Offset(messages, m + 1)];
    assert part[j] == ReceivePlan(messages, slots)[Offset(messages, m) + j];
  }

  lemma {:induction false} StreamAt(messages: seq<seq<nat>>, m: nat, j: nat)
    requires m < |messages| && j < |messages[m]|
    ensures Offset(messages, m) + j < |Concatenated(messages)|
    ensures Concatenated(messages)[Offset(messages, m) + j] == messages[m][j]
    decreases |messages|
  {
    var front := messages[..|messages| - 1];
    if m < |messages| - 1 {
      StreamAt(front, m, j);
      assert front[..m] == messages[..m];
    } else {
      assert messages[..m] == front;
    }
  }

  lemma LongRepeats(messages: seq<seq<nat>>, slots: nat)
    requires slots > 0 && !OneShortMessage(messages, slots)
    ensures !Distinct(ReceivePlan(messages, slots))
  {
    if m: nat :| m < |messages| && |messages[m]| > slots {
      WordAt(messages, slots, m, 0);
      WordAt(messages, slots, m, slots);
    } else {
      var m: nat, n: nat :| m < n < |messages| && messages[m] != [] && messages[n] != [];
      WordAt(messages, slots, m, 0);
      WordAt(messages, slots, n, 0);
      PlanAt(messages, slots, m);
      OffsetsGrow(messages, slots, m + 1, n);
    }
  }
}
