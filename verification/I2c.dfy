/**
  The buffers of cores/ardulinux/linux/LinuxHardwareI2C.cpp: a transmit buffer filled by
  write() and a receive buffer filled by requestFrom() and emptied by read(), both 1000 bytes.
 */
module I2c {
  import opened Wrappers

  const CAPACITY: nat := 1000

  type Bytes = seq<bv8>

  /** The module-level variables, and what the device has seen of them. */
  datatype Wire = Wire(
    tx: Bytes,              // TXbuf up to requestedBytes
    rx: Bytes,              // all of RXbuf
    rxLen: int,
    rxIndex: nat,
    sent: seq<Bytes>,       // messages the device took, each as far as it took it
    deviceReads: nat)       // reads that went past the receive buffer
  {
    ghost predicate Valid() {
      |tx| <= CAPACITY && |rx| == CAPACITY && 0 <= rxLen <= CAPACITY && rxIndex < CAPACITY
    }

    /** The bytes still to be served from the receive buffer. */
    function Queue(): Bytes
      requires |rx| == CAPACITY && rxLen <= CAPACITY
    {
      if rxLen - rxIndex > 0 then rx[rxIndex..rxLen] else []
    }

    function Write(data: Bytes): Wire
      requires |tx| <= CAPACITY
    {
      this.(tx := tx + data[..Fitting(|data|)])
    }

    function Fitting(size: nat): nat
      requires |tx| <= CAPACITY
    {
      if size <= CAPACITY - |tx| then size else CAPACITY - |tx|
    }

    /** `accepted` is the result of write(): how many bytes the device took, negative for an error. */
    function EndTransmission(stopBit: bool, accepted: int): Wire
      requires accepted <= |tx|
    {
      if !stopBit || tx == [] then this
      else if accepted <= 0 then this.(tx := [])
      else this.(tx := [], sent := sent + [tx[..accepted]])
    }

    /** The combined write-then-read; `answer` is None when the ioctl fails. */
    function RequestCombined(answer: Option<Bytes>): Wire
      requires |rx| == CAPACITY && (answer.Some? ==> |answer.value| <= CAPACITY)
    {
      if answer.None? then this
      else this.(rx := answer.value + rx[|answer.value|..], rxLen := |answer.value|, sent := sent + [tx])
    }

    /** The plain read; `answer` is what the device gave, None for an error. */
    function RequestPlain(answer: Option<Bytes>): Wire
      requires |rx| == CAPACITY && (answer.Some? ==> |answer.value| <= CAPACITY)
    {
      if answer.None? then this.(rxLen := 0, rxIndex := 0)
      else this.(rx := answer.value + rx[|answer.value|..], rxLen := |answer.value|, rxIndex := 0)
    }

    function RequestFrom(answer: Option<Bytes>): Wire
      requires |rx| == CAPACITY && (answer.Some? ==> |answer.value| <= CAPACITY)
    {
      if tx != [] then RequestCombined(answer) else RequestPlain(answer)
    }

    function AfterRead(): Wire {
      if rxLen - rxIndex > 0 then
        if rxIndex + 1 == rxLen || rxIndex + 1 > 999 then this.(rxIndex := 0, rxLen := 0)
        else this.(rxIndex := rxIndex + 1)
      else this.(deviceReads := deviceReads + 1)
    }
  }

  /** A char widened to int: on x86 char is signed. */
  function Widen(b: bv8, charIsSigned: bool): int {
    if charIsSigned && b as int >= 128 then b as int - 256 else b as int
  }

  class LinuxHardwareI2C {
    const charIsSigned: bool
    const TXbuf: array<bv8>
    const RXbuf: array<bv8>
    var RXlen: int
    var RXindex: nat
    var requestedBytes: nat
    ghost var sent: seq<Bytes>
    ghost var deviceReads: nat

    ghost predicate Valid()
      reads this, TXbuf, RXbuf
    {
      && TXbuf != RXbuf && TXbuf.Length == CAPACITY && RXbuf.Length == CAPACITY
      && requestedBytes <= CAPACITY
      && View().Valid()
    }

    ghost function View(): Wire
      reads this, TXbuf, RXbuf
      requires requestedBytes <= TXbuf.Length
    {
      Wire(TXbuf[..requestedBytes], RXbuf[..], RXlen, RXindex, sent, deviceReads)
    }

    constructor (charIsSigned: bool)
      ensures Valid() && fresh(TXbuf) && fresh(RXbuf)
      ensures View() == Wire([], Zeros(), 0, 0, [], 0)
    {
      this.charIsSigned := charIsSigned;
      TXbuf := new bv8[CAPACITY](_ => 0);
      RXbuf := new bv8[CAPACITY](_ => 0);
      RXlen, RXindex, requestedBytes, sent, deviceReads := 0, 0, 0, [], 0;
      new;
      assert RXbuf[..] == Zeros();
    }

    method BeginTransmission()
      requires Valid()
      modifies this`requestedBytes
      ensures Valid() && View() == old(View()).(tx := [])
    {
      requestedBytes := 0;
    }

    method WriteByte(toWrite: bv8) returns (n: nat)
      requires Valid()
      modifies this`requestedBytes, TXbuf
      ensures Valid() && View() == old(View()).Write([toWrite]) && n == old(View()).Fitting(1)
    {
      if requestedBytes >= CAPACITY {
        return 0;
      }
      TXbuf[requestedBytes] := toWrite;
      requestedBytes := requestedBytes + 1;
      n := 1;
    }

    method Write(buffer: Bytes) returns (written: nat)
      requires Valid()
      modifies this`requestedBytes, TXbuf
      ensures Valid() && View() == old(View()).Write(buffer) && written == old(View()).Fitting(|buffer|)
    {
      written := 0;
      ghost var before := View();
      for i := 0 to |buffer|
        invariant Valid() && i == written <= |buffer|
        invariant requestedBytes == |before.tx| + written
        invariant View() == before.(tx := before.tx + buffer[..written])
      {
        if requestedBytes >= CAPACITY {
          break;
        }
        TXbuf[requestedBytes] := buffer[i];
        requestedBytes := requestedBytes + 1;
        written := written + 1;
        assert before.tx + buffer[..written] == before.tx + buffer[..i] + [buffer[i]];
      }
    }

    method EndTransmission(stopBit: bool, accepted: int) returns (code: nat)
      requires Valid() && accepted <= requestedBytes
      modifies this`requestedBytes, this`sent
      ensures Valid() && View() == old(View()).EndTransmission(stopBit, accepted)
      ensures code == Code(old(View()), stopBit, accepted)
    {
      if stopBit && requestedBytes > 0 {
        var success := accepted == requestedBytes;
        if accepted > 0 {
          sent := sent + [TXbuf[..requestedBytes][..accepted]];
        }
        requestedBytes := 0;
        return if success then 0 else 4;
      }
      code := 0;
    }

    /** `answer` is what the bus delivers: exactly `count` bytes in a combined transaction, at most that otherwise. */
    method RequestFrom(count: nat, answer: Option<Bytes>) returns (n: nat)
      requires Valid() && count <= CAPACITY
      requires answer.Some? ==> if requestedBytes > 0 then |answer.value| == count else |answer.value| <= count
      modifies this, RXbuf
      ensures Valid() && View() == old(View()).RequestFrom(answer)
      ensures n == if answer.Some? then |answer.value| else 0
    {
      if requestedBytes > 0 {
        if answer.Some? {
          sent := sent + [TXbuf[..requestedBytes]];
          Fill(answer.value);
          RXlen := count;
          return count;
        }
        return 0;
      }
      if answer.Some? {
        Fill(answer.value);
        RXlen := |answer.value|;
      } else {
        RXlen := -1;
      }
      if RXlen < 1 {
        RXlen := 0;
      }
      RXindex := 0;
      n := RXlen;
    }

    method Fill(data: Bytes)
      requires Valid() && |data| <= CAPACITY
      modifies RXbuf
      ensures RXbuf[..] == data + old(RXbuf[..])[|data|..]
      ensures TXbuf[..] == old(TXbuf[..])
    {
      for i := 0 to |data|
        invariant forall j :: 0 <= j < i ==> RXbuf[j] == data[j]
        invariant forall j :: i <= j < CAPACITY ==> RXbuf[j] == old(RXbuf[j])
        invariant TXbuf[..] == old(TXbuf[..])
      {
        RXbuf[i] := data[i];
      }
    }

    /** `fallback` is what the device gives to a one-byte read, None for an error. */
    method Read(fallback: Option<bv8>) returns (b: int)
      requires Valid()
      modifies this`RXindex, this`RXlen, this`deviceReads
      ensures Valid() && View() == old(View()).AfterRead()
      ensures b == if old(View()).Queue() != [] then Widen(old(View()).Queue()[0], charIsSigned)
                   else if fallback.Some? then fallback.value as int else -1
    {
      if RXlen - RXindex > 0 {
        b := Widen(RXbuf[RXindex], charIsSigned);
        RXindex := RXindex + 1;
        if RXindex == RXlen || RXindex > 999 {
          RXindex := 0;
          RXlen := 0;
        }
        return;
      }
      deviceReads := deviceReads + 1;
      b := if fallback.Some? then fallback.value as int else -1;
    }

    /** `pending` is the driver's own count, asked for only when the buffer is empty. */
    method Available(pending: int) returns (n: int)
      requires Valid()
      ensures n == if View().Queue() != [] then |View().Queue()| else pending
    {
      if RXlen - RXindex > 0 {
        return RXlen - RXindex;
      }
      n := pending;
    }
  }

  function Zeros(): Bytes {
    seq(CAPACITY, _ => 0)
  }

  // ---- the receive buffer is a FIFO ----

  /** Each read serves the front of the queue without touching the device; an empty queue asks the device. */
  lemma ReadPops(w: Wire)
    requires w.Valid()
    ensures w.AfterRead().Valid()
    ensures w.Queue() != [] ==> w.AfterRead().Queue() == w.Queue()[1..] && w.AfterRead().deviceReads == w.deviceReads
    ensures |w.Queue()| == 1 ==> w.AfterRead().rxIndex == 0 && w.AfterRead().rxLen == 0
    ensures w.Queue() == [] ==> w.AfterRead().deviceReads == w.deviceReads + 1
  {
  }

  /** `n` reads in a row, and what they return out of the buffer. */
  function Reads(w: Wire, n: nat): (Bytes, Wire)
    requires w.Valid() && n <= |w.Queue()|
    decreases n
  {
    ReadPops(w);
    if n == 0 then ([], w)
    else
      var (rest, w') := Reads(w.AfterRead(), n - 1);
      ([w.Queue()[0]] + rest, w')
  }

  /** If the buffer reports n available, the next n reads are those n bytes in order, and it ends up reset. */
  lemma {:induction false} ReadsServeTheQueue(w: Wire, n: nat)
    requires w.Valid() && n <= |w.Queue()|
    ensures var (bytes, w') := Reads(w, n);
            && bytes == w.Queue()[..n] && w'.Valid() && w'.Queue() == w.Queue()[n..]
            && w'.deviceReads == w.deviceReads && w'.sent == w.sent && w'.tx == w.tx
            && (n > 0 && n == |w.Queue()| ==> w'.rxIndex == 0 && w'.rxLen == 0)
    decreases n
  {
    ReadPops(w);
    if n > 0 {
      var q := w.Queue();
      ReadsServeTheQueue(w.AfterRead(), n - 1);
      assert q[..n] == [q[0]] + q[1..][..n - 1];
      assert q[1..][n - 1..] == q[n..];
    }
  }

  /**
    A plain request replaces the queue. A combined one keeps the old read index k, so it serves
    its answer from position k on, all of it exactly if k was 0 or there was nothing to serve.
   */
  lemma RequestReplacesQueue(w: Wire, answer: Bytes)
    requires w.Valid() && |answer| <= CAPACITY
    ensures w.RequestFrom(Some(answer)).Valid()
    ensures w.tx == [] ==> w.RequestFrom(Some(answer)).Queue() == answer
    ensures w.tx != [] ==>
              var q, k := w.RequestFrom(Some(answer)).Queue(), w.rxIndex;
              && q == (if k < |answer| then answer[k..] else [])
              && |q| == (if |answer| - k > 0 then |answer| - k else 0)
              && (q == answer <==> k == 0 || answer == [])
  {
    var w' := w.RequestFrom(Some(answer));
    if w.tx == [] {
      assert w'.Queue() == answer;
    } else if w.rxIndex < |answer| {
      assert w'.Queue() == answer[w.rxIndex..];
      assert |w'.Queue()| == |answer| - w.rxIndex;
    }
  }

  /**
    It happens: two bytes or more requested, one read, a register number written, and a combined
    request that reports all of its answer and serves all but the first byte of it.
   */
  lemma FirstByteIsSkipped(w: Wire, first: Bytes, register: bv8, answer: Bytes)
    requires w.Valid() && w.tx == [] && 2 <= |first| <= CAPACITY && 1 <= |answer| <= CAPACITY
    ensures var w' := w.RequestFrom(Some(first)).AfterRead().Write([register]);
            w'.Valid() && w'.RequestFrom(Some(answer)).Queue() == answer[1..]
  {
    var w1 := w.RequestFrom(Some(first));
    assert w1.Valid() && w1.Queue() == first;
    var w2 := w1.AfterRead();
    assert w2.rxIndex == 1 && w2.tx == [];
    var w' := w2.Write([register]);
    assert w'.tx == [register];
    RequestReplacesQueue(w', answer);
    assert |answer| == 1 ==> answer[1..] == [];
  }

  /** A buffer that was read out, or a plain request, leaves the index at 0: then nothing is skipped. */
  lemma {:induction false} DrainedThenCombined(w: Wire, answer: Bytes)
    requires w.Valid() && |answer| <= CAPACITY && w.tx != [] && w.Queue() != []
    ensures var (_, w') := Reads(w, |w.Queue()|);
            w'.Valid() && w'.RequestFrom(Some(answer)).Queue() == answer
  {
    ReadsServeTheQueue(w, |w.Queue()|);
    var (_, w') := Reads(w, |w.Queue()|);
    RequestReplacesQueue(w', answer);
  }

  /** read() returns the byte served exactly if it is below 128 or char is unsigned; 0xFF then reads as an error. */
  lemma ReadValueIsTheByte(b: bv8, charIsSigned: bool)
    ensures Widen(b, charIsSigned) == b as int <==> !charIsSigned || b as int < 128
    ensures charIsSigned && b as int >= 128 ==> Widen(b, charIsSigned) == b as int - 256
    ensures Widen(0xFF, true) == -1
  {
  }

  // ---- the transmit buffer ----

  /** Any sequence of writes after a beginTransmission. */
  function Writes(w: Wire, parts: seq<Bytes>): Wire
    requires |w.tx| <= CAPACITY
    decreases |parts|
  {
    if parts == [] then w else Writes(w.Write(parts[0]), parts[1..])
  }

  function Joined(parts: seq<Bytes>): Bytes {
    if parts == [] then [] else parts[0] + Joined(parts[1..])
  }

  /** What goes out is what was written, in order, cut at the buffer's capacity. */
  lemma {:induction false} WritesAreSent(w: Wire, parts: seq<Bytes>)
    requires |w.tx| <= CAPACITY
    ensures var all := w.tx + Joined(parts);
            Writes(w, parts) == w.(tx := if |all| <= CAPACITY then all else all[..CAPACITY])
    decreases |parts|
  {
    var all := w.tx + Joined(parts);
    if parts != [] {
      var w1 := w.Write(parts[0]);
      WritesAreSent(w1, parts[1..]);
      assert all == w.tx + parts[0] + Joined(parts[1..]);
      if |w.tx| + |parts[0]| <= CAPACITY {
        assert w1.tx == w.tx + parts[0];
      } else {
        assert w1.tx == all[..CAPACITY];
        assert (w1.tx + Joined(parts[1..]))[..CAPACITY] == w1.tx;
      }
    }
  }

  /** What goes out for these writes: all of it, or as much as the buffer holds. */
  function Message(parts: seq<Bytes>): Bytes {
    if |Joined(parts)| <= CAPACITY then Joined(parts) else Joined(parts)[..CAPACITY]
  }

  /** endTransmission()'s result: 0 for success. */
  function Code(w: Wire, stopBit: bool, accepted: int): nat {
    if stopBit && w.tx != [] && accepted != |w.tx| then 4 else 0
  }

  /**
    A stopped transmission reports success exactly if the device got the whole message, once,
    and empties the buffer either way; an unstopped one keeps it for the next request.
   */
  lemma TransmissionRoundTrip(w: Wire, parts: seq<Bytes>, accepted: int)
    requires w.tx == [] && Joined(parts) != []
    requires var w' := Writes(w, parts); accepted <= |w'.tx|
    ensures var message, w' := Message(parts), Writes(w, parts);
            && (Code(w', true, accepted) == 0 || Code(w', true, accepted) == 4)
            && Code(w', false, accepted) == 0 && Code(w, true, accepted) == 0
            && (Code(w', true, accepted) == 0
                <==> w'.EndTransmission(true, accepted) == w.(sent := w.sent + [message]))
            && w'.EndTransmission(true, accepted).tx == []
            && w'.EndTransmission(false, accepted) == w.(tx := message)
  {
    WritesAreSent(w, parts);
    var message := Writes(w, parts).tx;
    assert w.tx + Joined(parts) == Joined(parts);
    assert message[..|message|] == message;
    if 0 < accepted < |message| {
      SentDiffer(w.sent, message[..accepted], message);
    }
  }

  lemma SentDiffer(sent: seq<Bytes>, a: Bytes, b: Bytes)
    requires |a| != |b|
    ensures sent + [a] != sent + [b]
  {
    assert (sent + [a])[|sent|] == a && (sent + [b])[|sent|] == b;
  }

  /**
    A transmission left open and a request: the device gets exactly the message, and the answer
    fills the receive buffer. The message stays, so a second request sends it again. A request
    that fails changes nothing.
   */
  lemma OpenTransmissionIsSent(w: Wire, parts: seq<Bytes>, answer: Bytes, again: Bytes)
    requires w.tx == [] && |w.rx| == CAPACITY && Joined(parts) != []
    requires |answer| <= CAPACITY && |again| <= CAPACITY
    ensures Writes(w, parts) == w.(tx := Message(parts))
    ensures var w1 := Writes(w, parts).EndTransmission(false, 0);
            var w2 := w1.RequestFrom(Some(answer));
            && w1 == Writes(w, parts)
            && w2.sent == w.sent + [Message(parts)] && w2.tx == Message(parts)
            && w2.rx[..|answer|] == answer && w2.rxLen == |answer| && w2.rxIndex == w.rxIndex
            && w2.RequestFrom(Some(again)).sent == w.sent + [Message(parts)] + [Message(parts)]
            && w1.RequestFrom(None) == w1
  {
    WritesAreSent(w, parts);
    assert w.tx + Joined(parts) == Joined(parts);
  }

  /** A request with nothing to send sends nothing; if it fails, the receive buffer is empty and both indices are 0. */
  lemma PlainRequestSendsNothing(w: Wire, answer: Bytes)
    requires w.tx == [] && |w.rx| == CAPACITY && |answer| <= CAPACITY
    ensures var w' := w.RequestFrom(Some(answer));
            w'.sent == w.sent && w'.tx == [] && w'.rxIndex == 0 && w'.rxLen == |answer| && w'.rx[..|answer|] == answer
    ensures var w' := w.RequestFrom(None);
            w' == w.(rxIndex := 0, rxLen := 0) && w'.Queue() == []
  {
  }
}
