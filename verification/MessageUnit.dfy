/**
 The EdgeLock message unit driver: word transfers that poll a status flag and
 move one word, and the message loops over them.

 The peer appears as what it will do: how many polls find a flag not ready before
 it acts, and what it puts into a slot. Finite numbers of polls are the fairness
 an unbounded wait needs to end.
 */
module MessageUnit {

  import opened Arithmetic

  const TR_COUNT: nat := 16
  const RR_COUNT: nat := 2
  const READ_RETRIES: nat := 5
  const UINT32_RANGE: nat := 0x1_0000_0000
  const RESET_STARTED: nat := 0x1700_D03C
  const RESET_COMPLETED: nat := 0x1B00_803C
  const READY_WAIT_TIME: nat := 0xFFFF_FFFF

  datatype Status = Success | Fail | InvalidArgument | ArgumentOutOfRange | RequestTimeout

  // What the driver finds in the receive slot reg if it waits for it: polls that
  // see it empty, the word, and the words put there while the driver looks again.
  datatype Arrival = Arrival(reg: nat, delay: nat, word: nat, refills: seq<nat>)

  // The word a transfer ends up with.
  function Taken(a: Arrival): nat {
    if a.refills == [] then a.word else a.refills[|a.refills| - 1]
  }

  // At most READ_RETRIES refills can be taken in one transfer.
  ghost predicate ArrivalOk(a: Arrival) {
    |a.refills| <= READ_RETRIES
  }

  ghost predicate QueueOk(q: seq<Arrival>) {
    forall k :: 0 <= k < |q| ==> ArrivalOk(q[k])
  }

  // The peer keeps to the rule that a slot is refilled only after it was left.
  ghost predicate PoliteArrival(a: Arrival) {
    a.refills == []
  }

  // The third byte of a header word is the number of payload words.
  function HeaderSize(w: nat): (n: nat)
    ensures n < 256
  {
    (w / 0x1_0000) % 256
  }

  // A header word and its four bytes, the first in the lowest place.
  predicate IsHeader(w: nat, tagSts: nat, checkBits: nat, size: nat, command: nat) {
    && tagSts < 256 && checkBits < 256 && size < 256 && command < 256
    && w == tagSts + 0x100 * checkBits + 0x1_0000 * size + 0x100_0000 * command
  }

  lemma SizeOfHeader(w: nat, tagSts: nat, checkBits: nat, size: nat, command: nat)
    requires IsHeader(w, tagSts, checkBits, size, command)
    ensures HeaderSize(w) == size
  {
    DivMod(w, 0x1_0000, size + 0x100 * command, tagSts + 0x100 * checkBits);
    DivMod(size + 0x100 * command, 0x100, command, size);
  }

  class Elemu {
    // Transmit side: full flags, polls until the peer drains each slot, and
    // everything written so far.
    var txFull: seq<bool>
    var txDrain: seq<nat>
    var txLog: seq<(nat, nat)>
    // Receive side: the arrivals still to come, in wire order, each in a register of
    // the peer's choice; the refills of the slot just read; and the polls that found
    // nothing.
    var rx: seq<Arrival>
    var again: seq<nat>
    var idlePolls: nat

    ghost predicate Valid()
      reads this
    {
      && |txFull| == |txDrain| == TR_COUNT
      && QueueOk(rx)
    }

    constructor (arrivals: seq<Arrival>)
      requires QueueOk(arrivals)
      ensures Valid() && rx == arrivals && txLog == []
    {
      txFull, txDrain, txLog := seq(TR_COUNT, i => false), seq(TR_COUNT, i => 0), [];
      rx, again, idlePolls := arrivals, [], 0;
    }

    /*
     * Hardware
     */

    // Reads the transmit status; the peer drains a full slot in its own time.
    method PollTransmit(regid: nat) returns (empty: bool)
      requires Valid() && regid < TR_COUNT
      modifies this`txFull, this`txDrain
      ensures Valid() && empty == !txFull[regid]
      ensures !empty ==>
        txFull == old(txFull) && old(txDrain[regid]) > 0 && txDrain == old(txDrain)[regid := old(txDrain[regid]) - 1]
      ensures empty ==> txFull == old(txFull)[regid := false] && txDrain == old(txDrain)
    {
      if txFull[regid] && txDrain[regid] > 0 {
        txDrain := txDrain[regid := txDrain[regid] - 1];
        return false;
      }
      txFull := txFull[regid := false];
      return true;
    }

    // Writes a transmit register: only ever an empty one. The peer will drain it
    // after some number of polls.
    method WriteTransmit(regid: nat, word: nat)
      requires Valid() && regid < TR_COUNT && !txFull[regid]
      modifies this`txFull, this`txDrain, this`txLog
      ensures Valid() && txLog == old(txLog) + [(regid, word)]
    {
      var delay: nat :| true;
      txFull, txDrain := txFull[regid := true], txDrain[regid := delay];
      txLog := txLog + [(regid, word)];
    }

    method PollReceive(regid: nat) returns (full: bool)
      requires Valid() && regid < RR_COUNT
      modifies this`rx, this`idlePolls
      ensures Valid()
      ensures full <==> old(rx) != [] && old(rx[0].reg) == regid && old(rx[0].delay) == 0
      ensures full ==> rx == old(rx) && idlePolls == old(idlePolls)
      ensures !full ==> rx == Later(old(rx), 1) && idlePolls == old(idlePolls) + 1
    {
      full := rx != [] && rx[0].reg == regid && rx[0].delay == 0;
      if !full {
        rx := Later(rx, 1);
        idlePolls := idlePolls + 1;
      }
    }

    method ReadReceive(regid: nat) returns (word: nat)
      requires Valid() && rx != [] && rx[0].reg == regid && rx[0].delay == 0
      modifies this`rx, this`again
      ensures Valid() && word == old(rx[0].word) && again == old(rx[0].refills) && |again| <= READ_RETRIES
      ensures rx == old(rx)[1..]
    {
      assert ArrivalOk(rx[0]);
      word, again := rx[0].word, rx[0].refills;
      rx := rx[1..];
    }

    /*
     * Word transfers
     */

    method HalSendData(regid: nat, data: nat)
      requires Valid() && regid < TR_COUNT
      modifies this`txFull, this`txDrain, this`txLog
      ensures Valid() && txLog == old(txLog) + [(regid, data)]
    {
      var empty := PollTransmit(regid);
      while !empty
        invariant Valid() && txLog == old(txLog) && empty == !txFull[regid]
        decreases !empty, txDrain[regid]
      {
        empty := PollTransmit(regid);
      }
      WriteTransmit(regid, data);
    }

    // The re-read loop: as long as the slot is full again, take the newest word.
    method LookAgain(first: nat) returns (data: nat)
      requires Valid() && |again| <= READ_RETRIES
      modifies this`again
      ensures Valid() && data == (if old(again) == [] then first else old(again)[|old(again)| - 1])
    {
      data := first;
      assert Split(again, [], again, data, first);
      var readRetries := READ_RETRIES;
      while again != [] && readRetries != 0
        invariant readRetries >= |again|
        invariant exists taken :: Split(old(again), taken, again, data, first)
        decreases readRetries
      {
        ghost var taken :| Split(old(again), taken, again, data, first);
        data := again[0];
        assert Split(old(again), taken + [again[0]], again[1..], data, first);
        again := again[1..];
        readRetries := readRetries - 1;
      }
    }

    // Waits without bound; a word must be on its way to this register.
    method HalReceiveData(regid: nat) returns (data: nat)
      requires Valid() && rx != [] && regid == rx[0].reg < RR_COUNT
      modifies this`rx, this`again, this`idlePolls
      ensures Valid() && data == Taken(old(rx[0]))
      ensures rx == old(rx)[1..]
      ensures idlePolls == old(idlePolls) + old(rx[0].delay)
    {
      ghost var q, polled := rx, 0;
      assert Later(q, 0) == q;
      var full := PollReceive(regid);
      while !full
        invariant Valid()
        invariant rx == Later(q, if full then polled else polled + 1)
        invariant if full then q[0].delay == polled else q[0].delay > polled
        invariant idlePolls == old(idlePolls) + polled + (if full then 0 else 1)
        decreases !full, q[0].delay - polled
      {
        polled := polled + 1;
        full := PollReceive(regid);
      }
      var first := ReadReceive(regid);
      data := LookAgain(first);
    }

    // Waits for at most wait polls that find nothing; the counter is 32 bits wide
    // and is decremented before it is tested, so 0 means 2^32.
    method HalReceiveDataWait(regid: nat, wait: nat) returns (ret: Status, data: nat)
      requires Valid() && regid < RR_COUNT && wait < UINT32_RANGE
      modifies this`rx, this`again, this`idlePolls
      ensures Valid()
      ensures ret == if InTime(old(rx), regid, wait) then Success else RequestTimeout
      ensures ret == Success ==>
        && data == Taken(old(rx[0])) && rx == old(rx)[1..]
        && idlePolls == old(idlePolls) + old(rx[0].delay)
      ensures ret == RequestTimeout ==>
        && idlePolls == old(idlePolls) + Limit(wait)
        && rx == Later(old(rx), Limit(wait))
    {
      var left, polled := wait, 0;
      assert rx != [] ==> Later(rx, 0) == rx;
      var full := PollReceive(regid);
      while !full
        invariant Valid() && left < UINT32_RANGE
        invariant idlePolls == old(idlePolls) + polled + (if full then 0 else 1)
        invariant left == (Limit(wait) - polled) % UINT32_RANGE
        invariant 0 <= polled < Limit(wait)
        invariant !full ==> rx == Later(old(rx), polled + 1)
        invariant !full ==> old(rx) == [] || old(rx[0].reg) != regid || old(rx[0].delay) > polled
        invariant full ==> rx == Later(old(rx), polled)
        invariant full ==> old(rx) != [] && old(rx[0].reg) == regid && old(rx[0].delay) == polled
        decreases !full, Limit(wait) - polled
      {
        left := (left - 1) % UINT32_RANGE;
        polled := polled + 1;
        if left == 0 {
          return RequestTimeout, 0;
        }
        full := PollReceive(regid);
      }
      var first := ReadReceive(regid);
      data := LookAgain(first);
      ret := Success;
    }

    /*
     * Messages
     */

    // buf is null for a null pointer.
    method SendMessage(buf: array?<nat>, wordCount: nat) returns (ret: Status)
      requires Valid() && (buf != null && wordCount <= TR_COUNT ==> wordCount <= buf.Length)
      modifies this`txFull, this`txDrain, this`txLog
      ensures Valid()
      ensures ret == if buf == null then InvalidArgument
                     else if wordCount > TR_COUNT then ArgumentOutOfRange else Success
      ensures ret != Success ==> txLog == old(txLog)
      ensures ret == Success ==> txLog == old(txLog) + Placed(buf[..wordCount])
    {
      if buf == null {
        return InvalidArgument;
      } else if wordCount > TR_COUNT {
        return ArgumentOutOfRange;
      }
      var txRegIdx, counter, left := 0, 0, wordCount;
      while left > 0
        invariant Valid() && counter + left == wordCount && txRegIdx == counter
        invariant txLog == old(txLog) + Placed(buf[..counter])
        decreases left
      {
        txRegIdx := txRegIdx % TR_COUNT;
        HalSendData(txRegIdx, buf[counter]);
        assert buf[..counter + 1][..counter] == buf[..counter];
        txRegIdx, counter, left := txRegIdx + 1, counter + 1, left - 1;
      }
      ret := Success;
    }

    // Any number of messages, one call after the other.
    method SendMessages(messages: seq<array<nat>>)
      requires Valid() && forall m :: 0 <= m < |messages| ==> messages[m].Length <= TR_COUNT
      modifies this`txFull, this`txDrain, this`txLog
      ensures Valid() && txLog == old(txLog) + Written(Contents(messages))
    {
      ghost var words := Contents(messages);
      var m := 0;
      while m < |messages|
        invariant Valid() && m <= |messages| && Contents(messages) == words
        invariant txLog == old(txLog) + Written(words[..m])
      {
        var ret := SendMessage(messages[m], messages[m].Length);
        assert messages[m][..messages[m].Length] == messages[m][..] == words[m];
        WrittenNext(words, m);
        m := m + 1;
      }
      assert words[..m] == words;
    }

    // One word into its place in the buffer, with or without a bound on the wait.
    method ReceiveInto(buf: array<nat>, i: nat, regid: nat, wait: nat) returns (ret: Status)
      requires Valid() && regid < RR_COUNT && i < buf.Length && wait < UINT32_RANGE
      requires wait == 0 ==> rx != [] && rx[0].reg == regid
      modifies this`rx, this`again, this`idlePolls, buf
      ensures Valid() && (wait > 0 ==> idlePolls <= old(idlePolls) + wait)
      ensures ret == if wait == 0 || InTime(old(rx), regid, wait) then Success else RequestTimeout
      ensures ret == Success ==>
        old(rx) != [] && rx == old(rx)[1..] && buf[..] == old(buf[..])[i := Taken(old(rx[0]))]
      ensures ret != Success ==> rx == Later(old(rx), wait) && buf[..] == old(buf[..])
    {
      ghost var before := buf[..];
      var data;
      if wait > 0 {
        ret, data := HalReceiveDataWait(regid, wait);
      } else {
        ret := Success;
        data := HalReceiveData(regid);
      }
      assert buf[..] == before;
      if ret == Success {
        buf[i] := data;
        assert buf[..] == before[i := data];
      }
    }

    // The payload loop: size words from buf[1] on, the first from register firstReg.
    method ReadPayload(buf: array<nat>, size: nat, firstReg: nat)
      requires Valid() && firstReg <= 1 && size < buf.Length && Expected(rx, firstReg, size)
      modifies this`rx, this`again, this`idlePolls, buf
      ensures Valid() && rx == old(rx)[size..]
      ensures Stored(old(buf[..]), buf[..], 1, old(rx), size)
    {
      var msgSize: nat, rxRegIdx: nat, counter: nat := size, firstReg, 0;
      while msgSize > 0
        invariant Valid() && counter + msgSize == size
        invariant rxRegIdx <= RR_COUNT && rxRegIdx % RR_COUNT == (firstReg + counter) % RR_COUNT
        invariant rx == old(rx)[counter..]
        invariant Stored(old(buf[..]), buf[..], 1, old(rx), counter)
        decreases msgSize
      {
        rxRegIdx := rxRegIdx % RR_COUNT;
        ghost var sofar := buf[..];
        var ok := ReceiveInto(buf, counter + 1, rxRegIdx, 0);
        StoredStep(old(buf[..]), sofar, 1, old(rx), counter);
        rxRegIdx, counter, msgSize := rxRegIdx + 1, counter + 1, msgSize - 1;
      }
    }

    // Word k of a message comes from register k mod RR_COUNT. With a header, buf
    // holds the header and its payload in wire order and size is one more than the
    // payload, modulo 256; without one the payload starts at buf[1] all the same.
    method ReadMessage(buf: array?<nat>, size: nat, haveSize: bool, readHeader: bool)
      returns (ret: Status, size': nat)
      requires Valid() && size < 256
      requires buf != null && haveSize && !readHeader ==> Expected(rx, 0, size) && size + 1 <= buf.Length
      requires buf != null && haveSize && readHeader ==>
        rx != [] && Expected(rx, 0, Framed(rx)) && Framed(rx) <= buf.Length
      modifies this`rx, this`again, this`idlePolls, buf
      ensures Valid()
      ensures ret == if buf == null || !haveSize then InvalidArgument else Success
      ensures ret == InvalidArgument ==> rx == old(rx) && size' == size && (buf != null ==> buf[..] == old(buf[..]))
      ensures ret == Success && readHeader ==>
        && size' == Framed(old(rx)) % 256 && rx == old(rx)[Framed(old(rx))..]
        && Stored(old(buf[..]), buf[..], 0, old(rx), Framed(old(rx)))
      ensures ret == Success && readHeader ==> old(rx) != []
      ensures ret == Success && readHeader ==> forall tagSts: nat, checkBits: nat, payload: nat, command: nat ::
        IsHeader(Taken(old(rx)[0]), tagSts, checkBits, payload, command) ==>
          size' == (payload + 1) % 256 && payload + 1 <= |old(rx)| && rx == old(rx)[payload + 1..]
      ensures ret == Success && !readHeader ==>
        && size' == size && rx == old(rx)[size..]
        && Stored(old(buf[..]), buf[..], 1, old(rx), size)
    {
      if buf == null || !haveSize {
        return InvalidArgument, size;
      }
      ret, size' := Success, size;
      if readHeader {
        var ok := ReceiveInto(buf, 0, 0, 0);
        ghost var framed := buf[..];
        var msgSize := HeaderSize(buf[0]);
        size' := (msgSize + 1) % 256;
        ReadPayload(buf, msgSize, 1);
        StoredFrame(old(buf[..]), framed, buf[..], old(rx), msgSize);
        FramedByHeader(old(rx));
      } else {
        ReadPayload(buf, size, 0);
      }
    }

    // Stops at the first word that is not there within wait polls; the words
    // before it are stored and the rest of the buffer is untouched.
    method ReadDataWait(buf: array?<nat>, size: nat, haveSize: bool, wait: nat) returns (ret: Status, ghost words: nat)
      requires Valid() && size < 256 && wait < UINT32_RANGE
      requires buf != null && haveSize ==> size <= buf.Length && (wait == 0 ==> Expected(rx, 0, size))
      modifies this`rx, this`again, this`idlePolls, buf
      ensures Valid()
      ensures ret == InvalidArgument || ret == RequestTimeout || ret == Success
      ensures ret == InvalidArgument <==> buf == null || !haveSize
      ensures ret == InvalidArgument ==> rx == old(rx) && (buf != null ==> buf[..] == old(buf[..]))
      ensures ret == Success ==> words == size && size <= |old(rx)| && rx == old(rx)[size..]
      ensures ret == RequestTimeout ==>
        && words < size && wait > 0 && !Arrived(old(rx), words, wait)
        && words <= |old(rx)| && rx == Later(old(rx)[words..], wait)
      ensures ret != InvalidArgument ==>
        AllArrived(old(rx), words, wait) && Stored(old(buf[..]), buf[..], 0, old(rx), words)
      ensures wait > 0 ==> idlePolls <= old(idlePolls) + Budget(wait, size)
    {
      words := 0;
      if buf == null || !haveSize {
        return InvalidArgument, 0;
      }
      var msgSize: nat, counter: nat, rxRegIdx: nat := size, 0, 0;
      while msgSize > 0
        invariant Valid() && counter + msgSize == size
        invariant rxRegIdx <= RR_COUNT && rxRegIdx % RR_COUNT == counter % RR_COUNT
        invariant AllArrived(old(rx), counter, wait)
        invariant counter <= |old(rx)| && rx == old(rx)[counter..]
        invariant Stored(old(buf[..]), buf[..], 0, old(rx), counter)
        invariant wait > 0 ==> idlePolls <= old(idlePolls) + Budget(wait, counter)
        decreases msgSize
      {
        rxRegIdx := rxRegIdx % RR_COUNT;
        ghost var sofar := buf[..];
        BudgetGrows(wait, counter, size);
        ret := ReceiveInto(buf, counter, rxRegIdx, wait);
        if ret != Success {
          return ret, counter;
        }
        StoredStep(old(buf[..]), sofar, 0, old(rx), counter);
        rxRegIdx, counter, msgSize := rxRegIdx + 1, counter + 1, msgSize - 1;
      }
      ret, words := Success, size;
    }

    method WaitForData(buf: array?<nat>, wordCount: nat, wait: nat) returns (ret: Status, ghost words: nat)
      requires Valid() && wait < UINT32_RANGE
      requires buf != null && wordCount <= RR_COUNT ==>
        wordCount <= buf.Length && (wait == 0 ==> Expected(rx, 0, wordCount))
      modifies this`rx, this`again, this`idlePolls, buf
      ensures Valid()
      ensures ret == InvalidArgument <==> buf == null
      ensures ret == ArgumentOutOfRange <==> buf != null && wordCount > RR_COUNT
      ensures ret == InvalidArgument || ret == ArgumentOutOfRange || ret == RequestTimeout || ret == Success
      ensures ret == InvalidArgument || ret == ArgumentOutOfRange ==> rx == old(rx)
      ensures ret == Success ==>
        && AllArrived(old(rx), wordCount, wait) && Stored(old(buf[..]), buf[..], 0, old(rx), wordCount)
        && rx == old(rx)[wordCount..]
      ensures ret == RequestTimeout ==>
        && words < wordCount && wait > 0 && !Arrived(old(rx), words, wait)
        && words <= |old(rx)| && rx == Later(old(rx)[words..], wait)
    {
      words := 0;
      if buf == null {
        return InvalidArgument, 0;
      } else if wordCount > RR_COUNT {
        return ArgumentOutOfRange, 0;
      }
      ret, words := ReadDataWait(buf, wordCount, true, wait);
    }

    // Success exactly when both reset words arrive in time and are the right ones.
    method StartupWait() returns (status: Status)
      requires Valid()
      modifies this`rx, this`again, this`idlePolls
      ensures Valid() && (status == Success || status == Fail)
      ensures status == Success <==> Started(old(rx))
      ensures status == Success ==> rx == old(rx)[2..]
    {
      var msg := new nat[2](i => 0);
      var ret, words := WaitForData(msg, 2, READY_WAIT_TIME);
      if ret != Success {
        status := Fail;
      } else if msg[0] != RESET_STARTED {
        status := Fail;
      } else if msg[1] != RESET_COMPLETED {
        status := Fail;
      } else {
        status := Success;
      }
    }

    // Wakes the secure subsystem: secRunning tells whether its clock-control
    // register showed it out of reset and clocked; control becomes 3 in any case.
    method WakeupPathInit(secRunning: bool) returns (status: Status, control: nat)
      requires Valid()
      modifies this`rx, this`again, this`idlePolls
      ensures Valid() && control == 3 && (status == Success || status == Fail)
      ensures secRunning ==> status == Success && rx == old(rx)
      ensures !secRunning ==> (status == Success <==> Started(old(rx)))
      ensures !secRunning && status == Success ==> rx == old(rx)[2..]
    {
      status, control := if secRunning then Success else Fail, 3;
      if status != Success {
        status := StartupWait();
      }
    }

    // busyPolls is how many reads of the semaphore status find it busy.
    method WaitForReady(wait: nat, secRunning: bool, busyPolls: nat) returns (ret: Status)
      requires Valid() && wait < UINT32_RANGE
      modifies this`rx, this`again, this`idlePolls
      ensures Valid() && (ret == Success || ret == RequestTimeout)
      ensures ret == Success <==>
        (secRunning || Started(old(rx))) && busyPolls < (if wait == 0 then 1 else wait)
      ensures ret == Success ==> rx == if secRunning then old(rx) else old(rx)[2..]
    {
      var status, control := WakeupPathInit(secRunning);
      if status != Success {
        return RequestTimeout;
      }
      ret := RequestTimeout;
      var polls := 0;
      if wait == 0 {
        if busyPolls <= polls {
          ret := Success;
        }
      } else {
        var left := wait;
        while left != 0
          invariant 0 <= left <= wait && polls == wait - left && ret == RequestTimeout
          invariant polls <= busyPolls
          decreases left
        {
          if busyPolls <= polls {
            ret := Success;
            break;
          }
          polls := polls + 1;
          left := left - 1;
        }
      }
    }

    // A session: make sure the subsystem is ready, then read any number of framed
    // messages, one call after the other.
    method Session(wait: nat, secRunning: bool, busyPolls: nat, count: nat)
      returns (ret: Status, messages: seq<seq<nat>>)
      requires Valid() && wait < UINT32_RANGE
      requires secRunning ==> WellFramed(rx, count)
      requires !secRunning && Started(rx) ==> WellFramed(rx[2..], count)
      modifies this`rx, this`again, this`idlePolls
      ensures Valid()
      ensures ret == Success <==>
        (secRunning || Started(old(rx))) && busyPolls < (if wait == 0 then 1 else wait)
      ensures ret == Success ==> messages == Frames(if secRunning then old(rx) else old(rx)[2..], count)
      ensures ret != Success ==> messages == []
    {
      messages := [];
      ret := WaitForReady(wait, secRunning, busyPolls);
      if ret == Success {
        messages := ReadMessages(count);
      }
    }

    method ReadMessages(count: nat) returns (messages: seq<seq<nat>>)
      requires Valid() && WellFramed(rx, count)
      modifies this`rx, this`again, this`idlePolls
      ensures Valid() && messages == Frames(old(rx), count)
      ensures rx == AfterFrames(old(rx), count)
    {
      messages := [];
      var left: nat := count;
      while left > 0
        invariant Valid() && left <= count && WellFramed(rx, left)
        invariant messages + Frames(rx, left) == Frames(old(rx), count)
        invariant AfterFrames(rx, left) == AfterFrames(old(rx), count)
      {
        ghost var before := rx;
        var buf := new nat[256](i => 0);
        var ret, size := ReadMessage(buf, 0, true, true);
        FrameRead(before, buf[..]);
        ghost var earlier, rest := messages, Frames(before[Framed(before)..], left - 1);
        assert Frames(before, left) == [buf[..size]] + rest;
        messages := messages + [buf[..size]];
        assert messages + rest == earlier + Frames(before, left);
        left := left - 1;
      }
    }
  }

  // The next words come in registers first, first + 1, ... modulo RR_COUNT.
  ghost predicate Expected(rx: seq<Arrival>, first: nat, words: nat) {
    words <= |rx| && forall k :: 0 <= k < words ==> rx[k].reg == (first + k) % RR_COUNT
  }

  // A queue of framed messages, each from register 0 on; a payload of 255 words would
  // make the size wrap.
  ghost predicate WellFramed(rx: seq<Arrival>, count: nat) {
    count > 0 ==>
      && rx != [] && HeaderSize(Taken(rx[0])) < 255 && Expected(rx, 0, Framed(rx))
      && WellFramed(rx[Framed(rx)..], count - 1)
  }

  function AllTaken(rx: seq<Arrival>): (words: seq<nat>)
    ensures |words| == |rx|
  {
    seq(|rx|, k requires 0 <= k < |rx| => Taken(rx[k]))
  }

  // The messages in a queue.
  ghost function Frames(rx: seq<Arrival>, count: nat): seq<seq<nat>>
    requires WellFramed(rx, count)
  {
    if count == 0 then [] else [AllTaken(rx[..Framed(rx)])] + Frames(rx[Framed(rx)..], count - 1)
  }

  ghost function AfterFrames(rx: seq<Arrival>, count: nat): seq<Arrival>
    requires WellFramed(rx, count)
  {
    if count == 0 then rx else AfterFrames(rx[Framed(rx)..], count - 1)
  }

  lemma FrameRead(rx: seq<Arrival>, after: seq<nat>)
    requires rx != [] && Framed(rx) <= |rx| && Framed(rx) <= |after|
    requires forall j :: 0 <= j < Framed(rx) ==> after[j] == Taken(rx[j])
    ensures after[..Framed(rx)] == AllTaken(rx[..Framed(rx)])
  {}

  // The words of a framed message, header included.
  function Framed(rx: seq<Arrival>): nat
    requires rx != []
  {
    HeaderSize(Taken(rx[0])) + 1
  }

  lemma FramedByHeader(rx: seq<Arrival>)
    requires rx != []
    ensures forall tagSts: nat, checkBits: nat, size: nat, command: nat ::
      IsHeader(Taken(rx[0]), tagSts, checkBits, size, command) ==> Framed(rx) == size + 1
  {
    forall tagSts: nat, checkBits: nat, size: nat, command: nat |
      IsHeader(Taken(rx[0]), tagSts, checkBits, size, command)
      ensures Framed(rx) == size + 1
    {
      SizeOfHeader(Taken(rx[0]), tagSts, checkBits, size, command);
    }
  }

  // A buffer after the first words of a transfer were stored from index start on,
  // and nothing else.
  ghost predicate Stored(before: seq<nat>, after: seq<nat>, start: nat, rx: seq<Arrival>, words: nat) {
    && |after| == |before| && start + words <= |after| && words <= |rx|
    && (forall j :: start <= j < start + words ==> after[j] == Taken(rx[j - start]))
    && (forall j :: 0 <= j < start || start + words <= j < |after| ==> after[j] == before[j])
  }

  lemma StoredStep(before: seq<nat>, after: seq<nat>, start: nat, rx: seq<Arrival>, words: nat)
    requires Stored(before, after, start, rx, words) && start + words < |after| && words < |rx|
    ensures Stored(before, after[start + words := Taken(rx[words])], start, rx, words + 1)
  {
  }

  lemma StoredFrame(before: seq<nat>, header: seq<nat>, after: seq<nat>, rx: seq<Arrival>, payload: nat)
    requires before != [] && rx != [] && header == before[0 := Taken(rx[0])]
    requires Stored(header, after, 1, rx[1..], payload)
    ensures Stored(before, after, 0, rx, payload + 1)
  {
  }

  // Both reset words arrive in time and are the right ones.
  ghost predicate Started(rx: seq<Arrival>) {
    && Arrived(rx, 0, 0xFFFF_FFFF) && Taken(rx[0]) == 0x1700_D03C
    && Arrived(rx, 1, 0xFFFF_FFFF) && Taken(rx[1]) == 0x1B00_803C
  }

  // wait polls for every word.
  function Budget(wait: nat, words: nat): nat {
    wait * words
  }

  lemma BudgetGrows(wait: nat, a: nat, b: nat)
    requires a < b
    ensures Budget(wait, a) + wait == Budget(wait, a + 1) <= Budget(wait, b)
  {
    Successor(a, wait);
    Scale(a + 1, b, wait);
  }

  // What is left of the re-read words after some were taken.
  ghost predicate Split(all: seq<nat>, taken: seq<nat>, rest: seq<nat>, data: nat, first: nat) {
    && all == taken + rest
    && data == if taken == [] then first else taken[|taken| - 1]
  }

  // The queue after some polls found its first word not there.
  function Later(q: seq<Arrival>, polls: nat): seq<Arrival> {
    if q == [] then q
    else [q[0].(delay := if q[0].delay < polls then 0 else q[0].delay - polls)] + q[1..]
  }

  // The polls a bounded wait allows itself.
  function Limit(wait: nat): nat {
    if wait == 0 then UINT32_RANGE else wait
  }

  ghost predicate InTime(q: seq<Arrival>, regid: nat, wait: nat) {
    q != [] && q[0].reg == regid && q[0].delay < Limit(wait)
  }

  // Word k is there in its register within the wait, which 0 makes unbounded in the
  // message loop.
  ghost predicate Arrived(rx: seq<Arrival>, k: nat, wait: nat) {
    k < |rx| && rx[k].reg == k % RR_COUNT && (wait == 0 || rx[k].delay < wait)
  }

  ghost predicate AllArrived(rx: seq<Arrival>, words: nat, wait: nat) {
    forall k: nat :: k < words ==> Arrived(rx, k, wait)
  }

  // Where a sent buffer goes: word k to transmit register k mod TR_COUNT.
  function Placed(words: seq<nat>): (w: seq<(nat, nat)>)
    ensures |w| == |words|
    ensures forall k :: 0 <= k < |words| ==> w[k] == (k % TR_COUNT, words[k])
  {
    if words == [] then []
    else Placed(words[..|words| - 1]) + [((|words| - 1) % TR_COUNT, words[|words| - 1])]
  }

  ghost function Contents(buffers: seq<array<nat>>): (words: seq<seq<nat>>)
    reads set m | 0 <= m < |buffers| :: buffers[m]
    ensures |words| == |buffers|
  {
    seq(|buffers|, m requires 0 <= m < |buffers| reads set m | 0 <= m < |buffers| :: buffers[m] => buffers[m][..])
  }

  // Where the words of successive messages go: each message starts at register 0.
  function Written(messages: seq<seq<nat>>): seq<(nat, nat)> {
    if messages == [] then []
    else Written(messages[..|messages| - 1]) + Placed(messages[|messages| - 1])
  }

  lemma WrittenNext(messages: seq<seq<nat>>, m: nat)
    requires m < |messages|
    ensures Written(messages[..m + 1]) == Written(messages[..m]) + Placed(messages[m])
  {
    assert messages[..m + 1][..m] == messages[..m];
  }

  // With a polite peer the buffer of a transfer holds the words the peer sent, in
  // wire order.
  lemma PoliteTransfer(before: seq<nat>, after: seq<nat>, start: nat, rx: seq<Arrival>, stream: seq<nat>)
    requires Stored(before, after, start, rx, |stream|)
    requires forall k :: 0 <= k < |stream| ==> PoliteArrival(rx[k]) && rx[k].word == stream[k]
    ensures after[start..start + |stream|] == stream
  {
    forall k | 0 <= k < |stream|
      ensures after[start + k] == stream[k]
    {
      assert PoliteArrival(rx[k]);
      assert after[start + k] == Taken(rx[start + k - start]);
    }
  }
}
