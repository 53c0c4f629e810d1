/**
 The two views of receiving joined: whatever writer and reader do to the slots,
 the reader sees an arrival queue of the kind the receive methods work on.
 */
module MailboxArrivals {
  import opened MailboxProtocol
  import opened MessageUnit

  // Polls by the reader that found its slot empty.
  function IdlePolls(run: seq<State>, actions: seq<Action>, i: nat): nat
    requires i < |run| == |actions| + 1
  {
    if i == 0 then 0
    else IdlePolls(run, actions, i - 1) + if actions[i - 1] == ReaderPolls && run[i] == run[i - 1] then 1 else 0
  }

  function Delays(q: seq<Arrival>): nat {
    if q == [] then 0 else Delays(q[..|q| - 1]) + q[|q| - 1].delay
  }

  function AllButLast(words: seq<nat>): seq<nat> {
    if words == [] then [] else words[..|words| - 1]
  }

  // The words a queue of transfers reads and does not end up with.
  function Dropped(q: seq<Arrival>): seq<nat> {
    if q == [] then []
    else Dropped(q[..|q| - 1]) + AllButLast([q[|q| - 1].word] + q[|q| - 1].refills)
  }

  // Completed transfers q, and idle polls and words read of the current one.
  datatype View = View(q: seq<Arrival>, idle: nat, taken: seq<nat>)

  // The words handed over are those of the transfers, each from the slot planned.
  ghost predicate Transfers(c: Channel, got: seq<nat>, q: seq<Arrival>) {
    && |q| == |got| && |q| <= |c.plan|
    && forall k :: 0 <= k < |q| ==>
         got[k] == Taken(q[k]) && |q[k].refills| <= c.rereads && q[k].reg == c.plan[k]
  }

  lemma OneMore(c: Channel, got: seq<nat>, q: seq<Arrival>, a: Arrival)
    requires Transfers(c, got, q) && |q| < |c.plan|
    requires a.reg == c.plan[|q|] && |a.refills| <= c.rereads
    ensures Transfers(c, got + [Taken(a)], q + [a])
  {}

  // The view agrees with a state of the reader.
  ghost predicate Sees(c: Channel, s: State, v: View) {
    && |v.q| == s.next && Transfers(c, s.got, v.q)
    && Dropped(v.q) + AllButLast(v.taken) == s.overwritten
    && match s.reader
       case Waiting => v.taken == []
       case Ready => v.taken == []
       case Looking(word, left) => Reading(c, v.taken, word, left)
       case Again(word, left) => Reading(c, v.taken, word, left)
  }

  predicate Reading(c: Channel, taken: seq<nat>, word: nat, left: nat) {
    taken != [] && taken[|taken| - 1] == word && |taken| + left == c.rereads + 1
  }

  // One step, as the reader sees it.
  function Viewed(c: Channel, s: State, a: Action, s': State, v: View): View
    requires Shape(c, s) && (s.reader.Looking? ==> s.next < |c.plan|)
    requires s.reader.Looking? && a == ReaderLooks && s'.reader.Waiting? ==> v.taken != []
    requires (a == ReaderReads || a == ReaderRereads) ==> s'.reader.Looking?
  {
    match a
    case ReaderPolls => if s' == s then v.(idle := v.idle + 1) else v
    case ReaderReads => v.(taken := v.taken + [s'.reader.word])
    case ReaderRereads => v.(taken := v.taken + [s'.reader.word])
    case ReaderLooks =>
      if s.reader.Looking? && s'.reader.Waiting?
      then View(v.q + [Arrival(c.plan[s.next], v.idle, v.taken[0], v.taken[1..])], 0, [])
      else v
    case _ => v
  }

  ghost predicate StepSeen(c: Channel, s: State, a: Action, v: View)
    requires Shape(c, s) && Enabled(c, s, a) && Sees(c, s, v)
  {
    var s' := Next(c, s, a);
    var v' := Viewed(c, s, a, s', v);
    && Sees(c, s', v')
    && Delays(v'.q) + v'.idle == Delays(v.q) + v.idle + if a == ReaderPolls && s' == s then 1 else 0
  }

  lemma ViewKept(c: Channel, s: State, a: Action, v: View)
    requires Shape(c, s) && Enabled(c, s, a) && Sees(c, s, v)
    ensures StepSeen(c, s, a, v)
  {
    match a
    case WriterPolls =>
    case WriterWrites =>
    case ReaderPolls =>
    case ReaderReads => ReadSeen(c, s, v);
    case ReaderRereads => RereadSeen(c, s, v);
    case ReaderLooks =>
      if Next(c, s, a).reader.Waiting? {
        TransferSeen(c, s, v);
      }
  }

  lemma NextView(c: Channel, s: State, a: Action, v: View) returns (v': View)
    requires Shape(c, s) && Enabled(c, s, a) && Sees(c, s, v)
    ensures Sees(c, Next(c, s, a), v')
    ensures Delays(v'.q) + v'.idle == Delays(v.q) + v.idle + if a == ReaderPolls && Next(c, s, a) == s then 1 else 0
  {
    ViewKept(c, s, a, v);
    v' := Viewed(c, s, a, Next(c, s, a), v);
  }

  lemma ReadSeen(c: Channel, s: State, v: View)
    requires Shape(c, s) && Enabled(c, s, ReaderReads) && Sees(c, s, v)
    ensures StepSeen(c, s, ReaderReads, v)
  {
    var s' := Next(c, s, ReaderReads);
    assert AllButLast([s'.reader.word]) == [];
  }

  lemma RereadSeen(c: Channel, s: State, v: View)
    requires Shape(c, s) && Enabled(c, s, ReaderRereads) && Sees(c, s, v)
    ensures StepSeen(c, s, ReaderRereads, v)
  {
    var s' := Next(c, s, ReaderRereads);
    assert AllButLast(v.taken + [s'.reader.word]) == AllButLast(v.taken) + [s.reader.word];
  }

  lemma TransferSeen(c: Channel, s: State, v: View)
    requires Shape(c, s) && Enabled(c, s, ReaderLooks) && Sees(c, s, v)
    requires Next(c, s, ReaderLooks).reader.Waiting?
    ensures StepSeen(c, s, ReaderLooks, v)
  {
    var a := Arrival(c.plan[s.next], v.idle, v.taken[0], v.taken[1..]);
    HandedOver(c, s, v, a);
    Appended(v.q, a);
  }

  lemma HandedOver(c: Channel, s: State, v: View, a: Arrival)
    requires Shape(c, s) && Enabled(c, s, ReaderLooks) && Sees(c, s, v)
    requires Next(c, s, ReaderLooks).reader.Waiting?
    requires a.reg == c.plan[s.next] && [a.word] + a.refills == v.taken
    ensures Sees(c, Next(c, s, ReaderLooks), View(v.q + [a], 0, []))
  {
    var s', q := Next(c, s, ReaderLooks), v.q + [a];
    LastTaken(a, v.taken);
    Appended(v.q, a);
    assert s'.got == s.got + [s.reader.word];
    assert AllButLast([]) == [] && Dropped(v.q) + AllButLast(v.taken) + [] == s'.overwritten;
    OneMore(c, s.got, v.q, a);
  }

  lemma LastTaken(a: Arrival, words: seq<nat>)
    requires [a.word] + a.refills == words
    ensures words != [] && Taken(a) == words[|words| - 1] && |a.refills| == |words| - 1
  {}

  lemma Appended(q: seq<Arrival>, a: Arrival)
    ensures Dropped(q + [a]) == Dropped(q) + AllButLast([a.word] + a.refills)
    ensures Delays(q + [a]) == Delays(q) + a.delay
  {
    assert (q + [a])[..|q|] == q;
  }

  // Over every run, for every peer: the words handed over are those of the arrival
  // queue's transfers, its delays are the idle polls, what it drops was overwritten,
  // and no transfer takes more refills than the reader looks again.
  lemma {:induction false} RunIsArrivalQueue(c: Channel, run: seq<State>, actions: seq<Action>, i: nat)
    returns (v: View)
    requires IsRun(c, run, actions) && i < |run|
    ensures Sees(c, run[i], v) && Delays(v.q) + v.idle == IdlePolls(run, actions, i)
    ensures c.rereads <= READ_RETRIES ==> QueueOk(v.q)
    decreases i
  {
    if i == 0 {
      v := View([], 0, []);
    } else {
      var s, a := run[i - 1], actions[i - 1];
      assert IsStep(c, s, a, run[i - 1 + 1]);
      var before := RunIsArrivalQueue(c, run, actions, i - 1);
      v := NextView(c, s, a, before);
    }
  }

  // With a polite peer every transfer is undisturbed and yields the word in turn.
  lemma PoliteRunIsPoliteQueue(c: Channel, run: seq<State>, actions: seq<Action>, i: nat) returns (v: View)
    requires IsRun(c, run, actions) && i < |run| && PoliteRun(c, run, actions)
    ensures Sees(c, run[i], v) && Delays(v.q) + v.idle == IdlePolls(run, actions, i)
    ensures forall k :: 0 <= k < |v.q| ==> Taken(v.q[k]) == k && PoliteArrival(v.q[k]) && v.q[k].reg == c.plan[k]
  {
    v := RunIsArrivalQueue(c, run, actions, i);
    PolitePreservesOrder(c, run, actions, i);
    PoliteNeverOverwrites(c, run, actions, i);
    forall k | 0 <= k < |v.q|
      ensures PoliteArrival(v.q[k])
    {
      NothingDropped(v.q, k);
    }
  }

  lemma {:induction false} NothingDropped(q: seq<Arrival>, k: nat)
    requires Dropped(q) == [] && k < |q|
    ensures q[k].refills == []
    decreases |q|
  {
    var last := [q[|q| - 1].word] + q[|q| - 1].refills;
    assert |AllButLast(last)| == |q[|q| - 1].refills|;
    if k < |q| - 1 {
      NothingDropped(q[..|q| - 1], k);
    }
  }

  /*
   * Sending
   */

  // Successive messages are written as the sending plan says: word p of the stream
  // goes to the slot the plan gives it.
  lemma {:induction false} SentAsPlanned(messages: seq<seq<nat>>)
    requires forall m :: 0 <= m < |messages| ==> |messages[m]| <= TR_COUNT
    ensures |Written(messages)| == |SendPlan(messages)| == |Concatenated(messages)|
    ensures forall p :: 0 <= p < |Written(messages)| ==>
      Written(messages)[p] == (SendPlan(messages)[p], Concatenated(messages)[p])
    decreases |messages|
  {
    if messages != [] {
      var front, last := messages[..|messages| - 1], messages[|messages| - 1];
      SentAsPlanned(front);
      forall k | 0 <= k < |last|
        ensures Placed(last)[k] == (Range(|last|)[k], last[k])
      {
        SlotOfWord(k);
      }
    }
  }

  lemma SlotOfWord(k: nat)
    requires k < TR_COUNT
    ensures k % TR_COUNT == k
  {}

  /*
   * A session of framed messages
   */

  // The arrivals with the words of a stream for their positions.
  function Filled(q: seq<Arrival>, stream: seq<nat>): (rx: seq<Arrival>)
    requires |q| <= |stream|
    ensures |rx| == |q|
  {
    seq(|q|, k requires 0 <= k < |q| => q[k].(word := stream[k], refills := []))
  }

  ghost predicate HeaderFor(w: nat, size: nat) {
    exists tagSts: nat, checkBits: nat, command: nat :: IsHeader(w, tagSts, checkBits, size, command)
  }

  // A header word and as many words as its size byte says, fewer than 256 in all.
  ghost predicate FrameOk(message: seq<nat>) {
    0 < |message| < 256 && HeaderFor(message[0], |message| - 1)
  }

  lemma FrameLength(message: seq<nat>)
    requires FrameOk(message)
    ensures HeaderSize(message[0]) + 1 == |message|
  {
    var size := |message| - 1;
    var tagSts: nat, checkBits: nat, command: nat :| IsHeader(message[0], tagSts, checkBits, size, command);
    SizeOfHeader(message[0], tagSts, checkBits, size, command);
  }

  // Whatever framed messages a polite peer sends, in whatever interleaving: the
  // reader's queue is one from which successive framed reads return these messages.
  lemma SessionReceives(messages: seq<seq<nat>>, rereads: nat, run: seq<State>, actions: seq<Action>, i: nat)
    returns (rx: seq<Arrival>)
    requires forall m :: 0 <= m < |messages| ==> FrameOk(messages[m])
    requires IsRun(Channel(RR_COUNT, ReceivePlan(messages, RR_COUNT), rereads), run, actions) && i < |run|
    requires PoliteRun(Channel(RR_COUNT, ReceivePlan(messages, RR_COUNT), rereads), run, actions)
    requires run[i].next == |Concatenated(messages)|
    ensures QueueOk(rx) && WellFramed(rx, |messages|) && Frames(rx, |messages|) == messages
    ensures Delays(rx) <= IdlePolls(run, actions, i)
  {
    var c := Channel(RR_COUNT, ReceivePlan(messages, RR_COUNT), rereads);
    var v := PoliteRunIsPoliteQueue(c, run, actions, i);
    rx := QueueCarries(c, v.q, messages);
    WholeSession(messages, rx);
  }

  lemma QueueCarries(c: Channel, q: seq<Arrival>, messages: seq<seq<nat>>) returns (rx: seq<Arrival>)
    requires c.plan == ReceivePlan(messages, RR_COUNT) && |q| == |c.plan| == |Concatenated(messages)|
    requires forall k :: 0 <= k < |q| ==> q[k].reg == c.plan[k]
    ensures Carries(rx, messages) && QueueOk(rx) && Delays(rx) == Delays(q)
  {
    rx := Filled(q, Concatenated(messages));
    FilledDelays(q, Concatenated(messages));
  }

  lemma WholeSession(messages: seq<seq<nat>>, rx: seq<Arrival>)
    requires (forall k :: 0 <= k < |messages| ==> FrameOk(messages[k])) && Carries(rx, messages)
    ensures WellFramed(rx, |messages|) && Frames(rx, |messages|) == messages
  {
    FramesFrom(messages, rx, 0);
    assert messages[0..] == messages && rx[Offset(messages, 0)..] == rx;
  }

  lemma {:induction false} FilledDelays(q: seq<Arrival>, stream: seq<nat>)
    requires |q| <= |stream|
    ensures Delays(Filled(q, stream)) == Delays(q)
    decreases |q|
  {
    if q != [] {
      var front := q[..|q| - 1];
      assert Filled(q, stream)[..|q| - 1] == Filled(front, stream);
      FilledDelays(front, stream);
    }
  }

  // The queue carries the messages, each from register 0 on.
  ghost predicate Carries(rx: seq<Arrival>, messages: seq<seq<nat>>) {
    && |rx| == |Concatenated(messages)| == |ReceivePlan(messages, RR_COUNT)|
    && forall k :: 0 <= k < |rx| ==>
         && Taken(rx[k]) == Concatenated(messages)[k]
         && rx[k].reg == ReceivePlan(messages, RR_COUNT)[k]
  }

  lemma {:induction false} FramesFrom(messages: seq<seq<nat>>, rx: seq<Arrival>, m: nat)
    requires forall k :: 0 <= k < |messages| ==> FrameOk(messages[k])
    requires Carries(rx, messages) && m <= |messages|
    ensures Offset(messages, m) <= |rx|
    ensures WellFramed(rx[Offset(messages, m)..], |messages| - m)
    ensures Frames(rx[Offset(messages, m)..], |messages| - m) == messages[m..]
    decreases |messages| - m
  {
    if m == |messages| {
      assert messages[..m] == messages;
    } else {
      MessageAt(messages, rx, m);
      FramesFrom(messages, rx, m + 1);
      var here := rx[Offset(messages, m)..];
      assert here[Framed(here)..] == rx[Offset(messages, m + 1)..];
      FirstFrame(here, |messages| - m, messages[m], messages[m + 1..]);
      assert messages[m..] == [messages[m]] + messages[m + 1..];
    }
  }

  lemma FirstFrame(rx: seq<Arrival>, count: nat, message: seq<nat>, rest: seq<seq<nat>>)
    requires count > 0 && rx != [] && HeaderSize(Taken(rx[0])) < 255 && Expected(rx, 0, Framed(rx))
    requires WellFramed(rx[Framed(rx)..], count - 1) && Frames(rx[Framed(rx)..], count - 1) == rest
    requires AllTaken(rx[..Framed(rx)]) == message
    ensures WellFramed(rx, count) && Frames(rx, count) == [message] + rest
  {}

  // Message m, where the messages before it end.
  lemma MessageAt(messages: seq<seq<nat>>, rx: seq<Arrival>, m: nat)
    requires Carries(rx, messages) && m < |messages| && FrameOk(messages[m])
    ensures Offset(messages, m) + |messages[m]| == Offset(messages, m + 1) <= |rx|
    ensures var here := rx[Offset(messages, m)..];
      && Framed(here) == |messages[m]| && Expected(here, 0, Framed(here))
      && HeaderSize(Taken(here[0])) < 255
      && AllTaken(here[..Framed(here)]) == messages[m]
  {
    PlanAt(messages, RR_COUNT, m);
    FrameLength(messages[m]);
    var here := rx[Offset(messages, m)..];
    forall j | 0 <= j < |messages[m]|
      ensures Taken(here[j]) == messages[m][j] && here[j].reg == j % RR_COUNT
    {
      WordAt(messages, RR_COUNT, m, j);
      StreamAt(messages, m, j);
    }
  }
}
