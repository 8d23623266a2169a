/** Requests, replies and their reception on a serial port (src/scan.rs). Times are milliseconds. */
module Frames {
  import opened Wrappers
  import opened Crc
  import opened CrcDetection

  datatype Reply = Data | Exception(code: bv8) | OtherUnit(unit: bv8) | Garbage

  /** Read one holding register, register 0. */
  function Request(unit: bv8): seq<bv8> {
    Frame([unit, 0x03, 0x00, 0x00, 0x00, 0x01])
  }

  /** What a server reads from it: a valid frame to `unit`, function 3, starting at register 0, for one
      register. */
  lemma RequestReads(unit: bv8)
    ensures var f := Request(unit);
            && |f| == 8 && ValidFrame(f)
            && f[0] == unit && f[1] == 3
            && 256 * (f[2] as nat) + f[3] as nat == 0 && 256 * (f[4] as nat) + f[5] as nat == 1
  {
    hide Checksum, ValidFrame;
    FrameIsValid([unit, 0x03, 0x00, 0x00, 0x00, 0x01]);
    assert (0x00 as bv8) as nat == 0 && (0x01 as bv8) as nat == 1;
  }

  /** The first `len` bytes are there and end in their own checksum. */
  predicate FrameOk(buf: seq<bv8>, len: nat)
    requires len >= 2
  {
    && |buf| >= len
    && var crc := Checksum(buf[..len - 2]);
       buf[len - 2] == LowByte(crc) && buf[len - 1] == HighByte(crc)
  }

  /** What the bytes read after asking `unit` amount to; nothing when none arrived. */
  function Classify(unit: bv8, buf: seq<bv8>): Option<Reply> {
    if buf == [] then None
    else if |buf| >= 5 && buf[1] == 0x83 && FrameOk(buf, 5) then
      Some(if buf[0] == unit then Exception(buf[2]) else OtherUnit(buf[0]))
    else if |buf| >= 3 && buf[1] == 0x03 && FrameOk(buf, 3 + buf[2] as nat + 2) then
      Some(if buf[0] == unit then Data else OtherUnit(buf[0]))
    else Some(Garbage)
  }

  /** How many bytes a reply needs, as far as its header has arrived. */
  function ExpectedLen(buf: seq<bv8>): nat {
    if |buf| >= 2 && buf[1] & 0x80 != 0 then 5
    else if |buf| >= 3 then 3 + buf[2] as nat + 2
    else 5
  }

  // ----- What counts as a reply -----

  /** A whole exception frame, or a whole data frame of the length its third byte announces. */
  predicate IsReply(r: seq<bv8>) {
    && |r| >= 5
    && ValidFrame(r)
    && ((r[1] == 0x83 && |r| == 5) || (r[1] == 0x03 && |r| == 5 + r[2] as nat))
  }

  function Meaning(unit: bv8, r: seq<bv8>): Reply
    requires IsReply(r)
  {
    if r[0] != unit then OtherUnit(r[0]) else if r[1] == 0x83 then Exception(r[2]) else Data
  }

  lemma FrameOkIsValid(buf: seq<bv8>, len: nat)
    requires 2 <= len <= |buf|
    ensures FrameOk(buf, len) <==> ValidFrame(buf[..len])
  {
    hide Checksum, LowByte, HighByte;
    var f := buf[..len];
    assert f[..len - 2] == buf[..len - 2];
    assert f == f[..len - 2] + [f[len - 2], f[len - 1]];
  }

  /** A buffer is recognised exactly when the bytes its own header asks for are there and are a reply;
      what follows them never matters. */
  lemma ClassifyExact(unit: bv8, buf: seq<bv8>)
    requires buf != []
    ensures Classify(unit, buf) == Some(
              if |buf| >= ExpectedLen(buf) && IsReply(buf[..ExpectedLen(buf)])
              then Meaning(unit, buf[..ExpectedLen(buf)]) else Garbage)
  {
    hide FrameOk, ValidFrame;
    var n := ExpectedLen(buf);
    if |buf| >= n {
      FrameOkIsValid(buf, n);
    }
    if |buf| >= 2 && buf[1] == 0x03 {
      assert (0x03 as bv8) & 0x80 == 0;
    }
    if |buf| >= 2 && buf[1] == 0x83 {
      assert (0x83 as bv8) & 0x80 != 0;
    }
    if |buf| >= 3 && buf[1] == 0x03 && |buf| < n {
      ShortFrameNotOk(buf, n);
    }
  }

  lemma ShortFrameNotOk(buf: seq<bv8>, len: nat)
    requires 2 <= len && |buf| < len
    ensures !FrameOk(buf, len)
  {}

  /** Once a whole reply has arrived the wanted length is its length, whatever follows it. */
  lemma ReplyComplete(r: seq<bv8>, buf: seq<bv8>)
    requires IsReply(r) && r <= buf
    ensures ExpectedLen(buf) == |r| && buf[..|r|] == r
  {}

  /** No shorter piece of it satisfies the length it asks for. */
  lemma PrefixIncomplete(r: seq<bv8>, buf: seq<bv8>)
    requires IsReply(r) && buf < r && buf != []
    ensures |buf| < ExpectedLen(buf)
  {}

  // ----- Reception -----

  /** What happens on the port while a reply is waited for, and how long after the last thing that did:
      bytes that can be read (none, if another reader was first), a signal, or a failure. */
  datatype Arrival = Bytes(after: nat, chunk: seq<bv8>) | Signal(after: nat) | Fault(after: nat)

  /** How long one wait may last: to the deadline, and no longer than `gap` once bytes have come. */
  function Wait(now: nat, deadline: nat, gap: nat, buf: seq<bv8>): nat
    requires now < deadline
  {
    var w := if buf == [] then deadline - now else Min(gap, deadline - now);
    if w < 1 then 1 else w
  }

  /** The reception from clock `now` with `buf` already in hand. A wait that passes in silence is the end
      of the reply, or, when there is none yet, lasted to the deadline. */
  function Receive(line: seq<Arrival>, now: nat, deadline: nat, gap: nat, buf: seq<bv8>): Result<seq<bv8>, ()>
    decreases |line|
  {
    if now >= deadline || (buf != [] && |buf| >= ExpectedLen(buf)) then Ok(buf)
    else if line == [] || line[0].after > Wait(now, deadline, gap, buf) then Ok(buf)
    else
      match line[0]
      case Bytes(after, chunk) => Receive(line[1..], now + after, deadline, gap, buf + chunk)
      case Signal(after) => Receive(line[1..], now + after, deadline, gap, buf)
      case Fault(_) => Err(())
  }

  /** `Port::transact`'s loop, over what arrives on the line. */
  method Transact(written: bool, line: seq<Arrival>, start: nat, timeout: nat, gap: nat)
    returns (r: Result<seq<bv8>, ()>)
    ensures r == if written then Receive(line, start, start + timeout, gap, []) else Err(())
  {
    if !written {
      return Err(());
    }
    var deadline := start + timeout;
    var now: nat, buf, next := start, [], 0;
    while true
      invariant next <= |line|
      invariant Receive(line[next..], now, deadline, gap, buf) == Receive(line, start, deadline, gap, [])
      decreases |line| - next, if now < deadline then deadline - now else 0
    {
      if now >= deadline || (buf != [] && |buf| >= ExpectedLen(buf)) {
        return Ok(buf);
      }
      var wait := Wait(now, deadline, gap, buf);
      if next == |line| || line[next].after > wait {
        if buf != [] {
          return Ok(buf);
        }
        now := now + wait;
        continue;
      }
      assert line[next..][1..] == line[next + 1..];
      match line[next] {
        case Bytes(after, chunk) => now, buf := now + after, buf + chunk;
        case Signal(after) => now := now + after;
        case Fault(_) => return Err(());
      }
      next := next + 1;
    }
  }

  function Elapsed(line: seq<Arrival>): nat {
    if line == [] then 0 else Elapsed(line[..|line| - 1]) + line[|line| - 1].after
  }

  function Delivered(line: seq<Arrival>): seq<bv8> {
    if line == [] then []
    else
      var last := line[|line| - 1];
      Delivered(line[..|line| - 1]) + if last.Bytes? then last.chunk else []
  }

  /** Arrival `k` comes while there is time: before the deadline, and once there are bytes no more than
      `gap` (a millisecond at least) after the arrival before. */
  predicate Timely(line: seq<Arrival>, k: nat, timeout: nat, gap: nat)
    requires k < |line|
  {
    && Elapsed(line[..k]) < timeout
    && Elapsed(line[..k]) + line[k].after <= timeout
    && (Delivered(line[..k]) != [] ==> line[k].after <= gap || line[k].after <= 1)
  }

  predicate Complete(buf: seq<bv8>) {
    buf != [] && |buf| >= ExpectedLen(buf)
  }

  /** Arrival `k` comes in time, and is still waited for. */
  predicate Awaited(line: seq<Arrival>, k: nat, timeout: nat, gap: nat)
    requires k < |line|
  {
    Timely(line, k, timeout, gap) && !Complete(Delivered(line[..k]))
  }

  /** What is left of the reception after the first `k` arrivals. */
  function After(line: seq<Arrival>, k: nat, start: nat, timeout: nat, gap: nat): Result<seq<bv8>, ()>
    requires k <= |line|
  {
    Receive(line[k..], start + Elapsed(line[..k]), start + timeout, gap, Delivered(line[..k]))
  }

  lemma OneMore(line: seq<Arrival>, k: nat)
    requires k < |line|
    ensures Elapsed(line[..k + 1]) == Elapsed(line[..k]) + line[k].after
    ensures Delivered(line[..k + 1]) == Delivered(line[..k]) + if line[k].Bytes? then line[k].chunk else []
    ensures line[k..][0] == line[k] && line[k..][1..] == line[k + 1..]
  {
    assert line[..k + 1][..k] == line[..k];
  }

  lemma WaitIs(t: nat, start: nat, timeout: nat, gap: nat, buf: seq<bv8>, after: nat)
    requires t < timeout
    ensures after <= Wait(start + t, start + timeout, gap, buf)
       <==> t + after <= timeout && (buf != [] ==> after <= gap || after <= 1)
  {}

  lemma ReceptionStep(line: seq<Arrival>, k: nat, start: nat, timeout: nat, gap: nat)
    requires k < |line| && Awaited(line, k, timeout, gap)
    ensures After(line, k, start, timeout, gap)
         == if line[k].Fault? then Err(()) else After(line, k + 1, start, timeout, gap)
  {
    hide Wait, ExpectedLen;
    OneMore(line, k);
    WaitIs(Elapsed(line[..k]), start, timeout, gap, Delivered(line[..k]), line[k].after);
    hide Elapsed, Delivered;
    assert Delivered(line[..k]) + [] == Delivered(line[..k]);
  }

  lemma ReceptionStops(line: seq<Arrival>, n: nat, start: nat, timeout: nat, gap: nat)
    requires n <= |line| && (n < |line| ==> !Awaited(line, n, timeout, gap))
    ensures After(line, n, start, timeout, gap) == Ok(Delivered(line[..n]))
  {
    hide Wait, ExpectedLen, Elapsed, Delivered;
    if n < |line| {
      assert line[n..][0] == line[n];
      if Elapsed(line[..n]) < timeout {
        WaitIs(Elapsed(line[..n]), start, timeout, gap, Delivered(line[..n]), line[n].after);
      }
    }
  }

  lemma {:induction false} ReceptionFrom(line: seq<Arrival>, k: nat, n: nat, start: nat, timeout: nat, gap: nat)
    requires k <= n <= |line|
    requires forall i :: 0 <= i < n ==> Awaited(line, i, timeout, gap) && !line[i].Fault?
    ensures After(line, k, start, timeout, gap) == After(line, n, start, timeout, gap)
    decreases n - k
  {
    hide Awaited, After;
    if k < n {
      ReceptionStep(line, k, start, timeout, gap);
      ReceptionFrom(line, k + 1, n, start, timeout, gap);
    }
  }

  /** The reception of anything whatever: the first `n` arrivals are those that come while they are waited
      for, the next is a failure or is not one of them. A failure is reported. Otherwise the bytes of
      those `n` are what is received, exactly: the reply is complete, the deadline has passed, or the
      silence after its last byte was too long, and nothing that comes later changes it. */
  lemma ReceptionEnds(line: seq<Arrival>, n: nat, start: nat, timeout: nat, gap: nat)
    requires n <= |line|
    requires forall i :: 0 <= i < n ==> Awaited(line, i, timeout, gap) && !line[i].Fault?
    requires n < |line| && Awaited(line, n, timeout, gap) ==> line[n].Fault?
    ensures Receive(line, start, start + timeout, gap, [])
         == if n < |line| && Awaited(line, n, timeout, gap) then Err(()) else Ok(Delivered(line[..n]))
  {
    hide Awaited, Receive;
    assert line[0..] == line && line[..0] == [];
    ReceptionFrom(line, 0, n, start, timeout, gap);
    if n < |line| && Awaited(line, n, timeout, gap) {
      ReceptionStep(line, n, start, timeout, gap);
    } else {
      ReceptionStops(line, n, start, timeout, gap);
    }
  }

  /** There always is such an `n`. */
  lemma {:induction false} ReceptionHasEnd(line: seq<Arrival>, k: nat, timeout: nat, gap: nat) returns (n: nat)
    requires k <= |line|
    requires forall i :: 0 <= i < k ==> Awaited(line, i, timeout, gap) && !line[i].Fault?
    ensures k <= n <= |line|
    ensures forall i :: 0 <= i < n ==> Awaited(line, i, timeout, gap) && !line[i].Fault?
    ensures n < |line| && Awaited(line, n, timeout, gap) ==> line[n].Fault?
    decreases |line| - k
  {
    hide Awaited;
    n := k;
    if k < |line| && Awaited(line, k, timeout, gap) && !line[k].Fault? {
      n := ReceptionHasEnd(line, k + 1, timeout, gap);
    }
  }

  lemma ReplyNonEmpty(r: seq<bv8>)
    requires IsReply(r)
    ensures r != []
  {}

  lemma PrefixOrder(r: seq<bv8>, a: seq<bv8>, b: seq<bv8>)
    requires r <= a + b
    ensures r <= a || a < r
  {}

  lemma {:induction false} DeliveredGrows(line: seq<Arrival>, k: nat, n: nat)
    requires k <= n <= |line|
    ensures Delivered(line[..k]) <= Delivered(line[..n])
    decreases n
  {
    if k < n {
      assert line[..n][..n - 1] == line[..n - 1];
      DeliveredGrows(line, k, n - 1);
    }
  }

  lemma ReplyIsComplete(r: seq<bv8>, buf: seq<bv8>)
    requires IsReply(r)
    ensures r <= buf ==> Complete(buf)
    ensures buf < r ==> !Complete(buf)
  {
    hide IsReply, ExpectedLen;
    ReplyNonEmpty(r);
    if r <= buf {
      ReplyComplete(r, buf);
    } else if buf < r && buf != [] {
      PrefixIncomplete(r, buf);
    }
  }

  /** However a reply is cut into chunks, if they all come in time and no further than `gap` apart it is
      received whole and recognised for what it is, whatever else comes with it or after it. */
  lemma ChunkIndependence(unit: bv8, r: seq<bv8>, line: seq<Arrival>, n: nat, start: nat, timeout: nat, gap: nat)
    requires IsReply(r) && n <= |line| && r <= Delivered(line[..n])
    requires forall i :: 0 <= i < n ==> Timely(line, i, timeout, gap) && !line[i].Fault?
    ensures var got := Receive(line, start, start + timeout, gap, []);
            && got.Ok? && r <= got.value
            && Classify(unit, got.value) == Some(Meaning(unit, r)) == Classify(unit, r)
  {
    hide IsReply, Classify, Receive, ExpectedLen, Timely, Delivered;
    var m := ReceptionHasEnd(line, 0, timeout, gap);
    ReceptionEnds(line, m, start, timeout, gap);
    ReplyNonEmpty(r);
    if m < n {
      DeliveredGrows(line, m, n);
      assert Complete(Delivered(line[..m]));
      PrefixOrder2(r, Delivered(line[..m]), Delivered(line[..n]));
      ReplyIsComplete(r, Delivered(line[..m]));
    } else {
      DeliveredGrows(line, n, m);
      if n < m {
        ReplyIsComplete(r, Delivered(line[..m - 1]));
        DeliveredGrows(line, n, m - 1);
      }
      if m < |line| {
        ReplyIsComplete(r, Delivered(line[..m]));
      }
    }
    var got := Delivered(line[..m]);
    ReplyComplete(r, got);
    ReplyComplete(r, r);
    ClassifyExact(unit, got);
    ClassifyExact(unit, r);
  }

  lemma PrefixOrder2(r: seq<bv8>, a: seq<bv8>, whole: seq<bv8>)
    requires r <= whole && a <= whole
    ensures r <= a || a < r
  {
    assert whole == a + whole[|a|..];
    PrefixOrder(r, a, whole[|a|..]);
  }

  /** But a reply that is broken off is noise: by too long a silence, or by the deadline, and whatever
      comes after it. */
  lemma BrokenReply(unit: bv8, r: seq<bv8>, line: seq<Arrival>, n: nat, start: nat, timeout: nat, gap: nat)
    requires IsReply(r) && n <= |line| && Delivered(line[..n]) != [] && Delivered(line[..n]) < r
    requires forall i :: 0 <= i < n ==> Timely(line, i, timeout, gap) && !line[i].Fault?
    requires n < |line| ==> !Timely(line, n, timeout, gap)
    ensures var got := Receive(line, start, start + timeout, gap, []);
            got == Ok(Delivered(line[..n])) && Classify(unit, got.value) == Some(Garbage)
  {
    hide IsReply, Classify, Receive, ExpectedLen, Timely, Delivered;
    forall i | 0 <= i < n
      ensures Awaited(line, i, timeout, gap)
    {
      DeliveredGrows(line, i, n);
      ReplyIsComplete(r, Delivered(line[..i]));
    }
    ReceptionEnds(line, n, start, timeout, gap);
    var got := Delivered(line[..n]);
    PrefixIncomplete(r, got);
    ClassifyExact(unit, got);
  }

  // ----- Corrupted replies -----

  /** An exception reply with any odd number of wrong bits, wherever they are, is Garbage. */
  lemma CorruptedException(unit: bv8, r: seq<bv8>, g: seq<bv8>)
    requires IsReply(r) && r[1] == 0x83 && |g| == |r|
    requires OddWeight(Differences(WireBits(r), WireBits(g)))
    ensures Classify(unit, g) == Some(Garbage)
  {
    hide WireBits, ValidFrame, Classify, OddWeight, Differences;
    OddErrorDetected(r, g);
    ClassifyExact(unit, g);
    assert |g| == 5 && g[..5] == g;
  }

  /** A data reply with an odd number of wrong bits is Garbage, unless its header now asks for fewer
      bytes and those happen to be a reply; so it is whenever its function and length bytes are not
      among the wrong ones. */
  lemma CorruptedData(unit: bv8, r: seq<bv8>, g: seq<bv8>)
    requires IsReply(r) && r[1] == 0x03 && |g| == |r|
    requires OddWeight(Differences(WireBits(r), WireBits(g)))
    ensures Classify(unit, g) == Some(Garbage) <==> !(ExpectedLen(g) < |g| && IsReply(g[..ExpectedLen(g)]))
    ensures g[1] == r[1] && g[2] == r[2] ==> Classify(unit, g) == Some(Garbage)
  {
    hide WireBits, ValidFrame, Classify, OddWeight, Differences;
    OddErrorDetected(r, g);
    ClassifyExact(unit, g);
    assert (0x03 as bv8) & 0x80 == 0;
    assert g[..|g|] == g;
  }

  /** The function byte has to be excepted: whatever the unit, there is a data reply that the flip of
      one bit of that byte turns into an exception reply. */
  lemma FunctionByteMatters(unit: bv8) returns (r: seq<bv8>)
    ensures IsReply(r) && Classify(unit, r) == Some(Data)
    ensures Classify(unit, r[1 := r[1] ^ 0x80]) == Some(Exception(2))
  {
    hide Classify, Checksum, LowByte, HighByte;
    var e := Frame([unit, 0x83, 0x02]);
    r := Frame([unit, 0x03, 0x02, e[3], e[4]]);
    FrameIsValid([unit, 0x83, 0x02]);
    FrameIsValid([unit, 0x03, 0x02, e[3], e[4]]);
    assert (0x02 as bv8) as nat == 2;
    assert IsReply(r) && IsReply(e);
    var g := r[1 := r[1] ^ 0x80];
    assert (0x03 as bv8) ^ 0x80 == 0x83;
    assert g[..5] == e;
    assert r[..|r|] == r;
    ReplyComplete(r, r);
    ReplyComplete(e, g);
    ClassifyExact(unit, r);
    ClassifyExact(unit, g);
  }

  /** So has the length byte: whatever the unit, there is a data reply that the flip of one bit of that
      byte leaves a data reply, a shorter one. */
  lemma LengthByteMatters(unit: bv8) returns (r: seq<bv8>)
    ensures IsReply(r) && Classify(unit, r) == Some(Data)
    ensures Classify(unit, r[2 := r[2] ^ 0x02]) == Some(Data)
  {
    hide Classify, Checksum, LowByte, HighByte;
    var e := Frame([unit, 0x03, 0x00]);
    r := Frame([unit, 0x03, 0x02, e[3], e[4]]);
    FrameIsValid([unit, 0x03, 0x00]);
    FrameIsValid([unit, 0x03, 0x02, e[3], e[4]]);
    assert (0x02 as bv8) as nat == 2 && (0x00 as bv8) as nat == 0;
    assert IsReply(r) && IsReply(e);
    var g := r[2 := r[2] ^ 0x02];
    assert (0x02 as bv8) ^ 0x02 == 0x00;
    assert g[..5] == e;
    assert r[..|r|] == r;
    ReplyComplete(r, r);
    ReplyComplete(e, g);
    ClassifyExact(unit, r);
    ClassifyExact(unit, g);
  }
}
