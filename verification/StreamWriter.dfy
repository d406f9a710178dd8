/** A bulk sender that resumes where the socket stopped accepting, over any sequence of send
    callbacks. */
module StreamWriter {

  newtype uint8 = x: int | 0 <= x < 0x100
  newtype uint32 = x: int | 0 <= x < 0x1_0000_0000
  newtype int32 = x: int | -0x8000_0000 <= x < 0x8000_0000

  const TOTAL_TX_BYTES: uint32 := 2000000
  const WRITE_SIZE: uint32 := 1040

  // ---- The stream

  /** The k-th byte of the alphabet repeated forever. */
  function Alphabet(k: nat): uint8 {
    (97 + k % 26) as uint8
  }

  ghost function AlphabetRange(from: nat, to: nat): (s: seq<uint8>)
    requires from <= to
    ensures |s| == to - from
  {
    seq(to - from, j requires 0 <= j < to - from => Alphabet(from + j))
  }

  /** toascii keeps the low seven bits. */
  function ToAscii(c: nat): uint8 {
    (c % 128) as uint8
  }

  ghost predicate Filled(data: seq<uint8>) {
    forall i :: 0 <= i < |data| ==> data[i] == ToAscii(97 + i % 26)
  }

  /** Cycling through a block gives the alphabet, up to the k-th byte. */
  ghost predicate Seamless(size: nat, total: nat)
    requires size > 0
  {
    forall k: nat :: k < total ==> Alphabet(k % size) == Alphabet(k)
  }

  lemma WholeAlphabetsSeamless(size: nat, total: nat)
    requires size > 0 && size % 26 == 0
    ensures Seamless(size, total)
  {
    forall k: nat | k < total ensures Alphabet(k % size) == Alphabet(k) {
      ModMod(k, size, 26);
    }
  }

  lemma UnusedSeamless(size: nat, total: nat)
    requires size > 0 && total <= size
    ensures Seamless(size, total)
  {
    forall k: nat | k < total ensures Alphabet(k % size) == Alphabet(k) {
      Remainder(k, size, 0, k);
    }
  }

  /** The first byte after a block that is no whole number of alphabets. */
  lemma SpliceShows(size: nat, total: nat)
    requires size > 0 && size % 26 != 0 && total > size
    ensures !Seamless(size, total)
  {
    Remainder(size, size, 1, 0);
    assert Alphabet(0) == 97 && Alphabet(size) != 97;
    assert Alphabet(size % size) != Alphabet(size);
  }

  /** Cycling through a block repeats the alphabet without a splice exactly when the block is a
      whole number of alphabets, or is not used up. */
  lemma SeamlessIffWholeAlphabets(size: nat, total: nat)
    requires size > 0
    ensures Seamless(size, total) <==> size % 26 == 0 || total <= size
  {
    if size % 26 == 0 {
      WholeAlphabetsSeamless(size, total);
    } else if total <= size {
      UnusedSeamless(size, total);
    } else {
      SpliceShows(size, total);
    }
  }

  lemma Remainder(x: nat, n: nat, q: nat, r: nat)
    requires r < n && x == q * n + r
    ensures x % n == r
  {
    var p, t := x / n, x % n;
    assert x == p * n + t;
    if q > p {
      AtLeast(q, p, n);
    } else if p > q {
      AtLeast(p, q, n);
    }
  }

  lemma Distribute(b: nat, c: nat, n: nat)
    ensures (b + 1 + c) * n == b * n + n + c * n && c * n >= 0
  {
  }

  lemma AtLeast(a: nat, b: nat, n: nat)
    requires a > b
    ensures a * n >= b * n + n
  {
    var c: nat := a - b - 1;
    Distribute(b, c, n);
  }

  lemma ModShift(a: nat, q: nat, n: nat)
    requires n > 0
    ensures (q * n + a) % n == a % n
  {
    var p := a / n;
    assert a == p * n + a % n;
    assert q * n + p * n == (q + p) * n;
    Remainder(q * n + a, n, q + p, a % n);
  }

  lemma ModMod(k: nat, size: nat, n: nat)
    requires n > 0 && size > 0 && size % n == 0
    ensures (k % size) % n == k % n
  {
    var q, m := k / size, size / n;
    assert size == m * n;
    assert k == q * size + k % size;
    assert q * (m * n) == (q * m) * n;
    ModShift(k % size, q * m, n);
  }

  lemma NoWrap(a: nat, j: nat, size: nat)
    requires size > 0 && a % size + j < size
    ensures (a + j) % size == a % size + j
  {
    assert a == (a / size) * size + a % size;
    Remainder(a + j, size, a / size, a % size + j);
  }

  /** A slice of the filled buffer that starts at the current offset continues the stream. */
  lemma SliceContinues(data: seq<uint8>, sent: nat, amount: nat)
    requires |data| == WRITE_SIZE as nat && Filled(data)
    requires sent % |data| + amount <= |data|
    ensures data[sent % |data|..sent % |data| + amount] == AlphabetRange(sent, sent + amount)
  {
    var size, offset := |data|, sent % |data|;
    var slice := data[offset..offset + amount];
    forall j | 0 <= j < amount ensures slice[j] == AlphabetRange(sent, sent + amount)[j] {
      NoWrap(sent, j, size);
      ModMod(sent + j, size, 26);
      assert slice[j] == data[offset + j] && data[offset + j] == ToAscii(97 + (offset + j) % 26);
    }
  }

  lemma RangesJoin(a: nat, b: nat, c: nat)
    requires a <= b <= c
    ensures AlphabetRange(a, b) + AlphabetRange(b, c) == AlphabetRange(a, c)
  {
  }

  lemma SendContinues(data: seq<uint8>, was: seq<uint8>, from: nat, sent: nat, amount: nat)
    requires |data| == WRITE_SIZE as nat && Filled(data)
    requires from <= sent && sent % |data| + amount <= |data|
    ensures (was + AlphabetRange(from, sent)) + data[sent % |data|..sent % |data| + amount] == was + AlphabetRange(from, sent + amount)
  {
    SliceContinues(data, sent, amount);
    RangesJoin(from, sent, sent + amount);
    var a, b := AlphabetRange(from, sent), AlphabetRange(sent, sent + amount);
    assert (was + a) + b == was + (a + b);
  }

  // ---- Runs of callbacks

  /** How many bytes the sender has counted, what the socket accepted, how often it was closed. */
  datatype Flow = Flow(sent: nat, accepted: seq<uint8>, closes: nat)

  /** What one callback may do: continue the stream, and close once the total is reached. */
  ghost predicate Callback(f: Flow, g: Flow) {
    && f.sent <= g.sent <= TOTAL_TX_BYTES as nat
    && g.accepted == f.accepted + AlphabetRange(f.sent, g.sent)
    && g.closes == f.closes + (if g.sent == TOTAL_TX_BYTES as nat then 1 else 0)
  }

  ghost predicate Run(flows: seq<Flow>) {
    && flows != [] && flows[0] == Flow(0, [], 0)
    && forall i {:trigger flows[i]} :: 0 < i < |flows| ==> Callback(flows[i - 1], flows[i])
  }

  ghost predicate Safe(f: Flow) {
    && f.sent <= TOTAL_TX_BYTES as nat
    && f.accepted == AlphabetRange(0, f.sent)
    && (f.closes > 0 ==> f.sent == TOTAL_TX_BYTES as nat)
  }

  /** At every moment of every run: the bytes accepted are the first ones of the stream, never
      more than the total, and a close means that all of them were accepted. */
  lemma {:induction false} RunsAreSafe(flows: seq<Flow>, i: nat)
    requires Run(flows) && i < |flows|
    ensures Safe(flows[i])
  {
    if i > 0 {
      RunsAreSafe(flows, i - 1);
      RangesJoin(0, flows[i - 1].sent, flows[i].sent);
    }
  }

  /** Along a run the accepted bytes only grow at the end; after a close nothing changes but the
      number of closes, which every further callback increases. */
  lemma {:induction false} RunsOnlyExtend(flows: seq<Flow>, i: nat, j: nat)
    requires Run(flows) && i <= j < |flows|
    ensures flows[i].accepted <= flows[j].accepted && flows[i].sent <= flows[j].sent
    ensures flows[i].closes > 0 ==> flows[j].accepted == flows[i].accepted && flows[j].closes == flows[i].closes + (j - i)
    decreases j - i
  {
    RunsAreSafe(flows, i);
    if i < j {
      RunsOnlyExtend(flows, i, j - 1);
      assert Callback(flows[j - 1], flows[j]);
    }
  }

  // ---- The socket and the sender

  /** The socket below: how much room it has, what it accepts and whether it refuses are not
      determined here. */
  class Socket {
    var available: uint32
    var accepted: seq<uint8>
    var closes: nat
    var refusals: nat
    var connected: bool
    var notifies: bool

    constructor ()
      ensures accepted == [] && closes == 0 && refusals == 0 && !connected && !notifies
    {
      available, accepted, closes, refusals, connected, notifies := *, [], 0, 0, false, false;
    }

    /** Takes between one byte and all of the slice, or refuses it. */
    method Send(buffer: array<uint8>, offset: uint32, size: uint32) returns (amount: int32)
      requires connected && notifies
      requires 0 < size <= available && offset as nat + size as nat <= buffer.Length <= 0x7fff_ffff
      modifies this`available, this`accepted, this`refusals
      ensures amount < 0 ==> accepted == old(accepted) && refusals == old(refusals) + 1
      ensures amount >= 0 ==> 0 < amount as int <= size as int && refusals == old(refusals)
      ensures amount >= 0 ==> accepted == old(accepted) + buffer[offset..offset as int + amount as int]
    {
      amount := *;
      if 0 < amount as int <= size as int {
        accepted := accepted + buffer[offset..offset as int + amount as int];
      } else {
        amount := -1;
        refusals := refusals + 1;
      }
      available := *;
    }

    method Close()
      modifies this`closes
      ensures closes == old(closes) + 1
    {
      closes := closes + 1;
    }
  }

  class Sender {
    const data: array<uint8>
    var currentTxBytes: uint32

    ghost predicate Valid()
      reads this, data
    {
      data.Length == WRITE_SIZE as nat && Filled(data[..]) && currentTxBytes <= TOTAL_TX_BYTES
    }

    ghost function State(socket: Socket): Flow
      reads this, socket
    {
      Flow(currentTxBytes as nat, socket.accepted, socket.closes)
    }

    /** Fills the buffer with the alphabet, over and over. */
    constructor ()
      ensures Valid() && currentTxBytes == 0 && fresh(data)
    {
      data := new uint8[WRITE_SIZE];
      currentTxBytes := 0;
      new;
      var i: uint32 := 0;
      while i < WRITE_SIZE
        invariant i <= WRITE_SIZE && currentTxBytes == 0 && fresh(data) && data.Length == WRITE_SIZE as nat
        invariant forall k :: 0 <= k < i as int ==> data[k] == ToAscii(97 + k % 26)
      {
        data[i] := ToAscii((97 + i % 26) as nat);
        i := i + 1;
      }
    }

    /** One send callback: writes until the total is reached, the buffer is full or a send is
        refused, and closes when the total is reached. The argument is not looked at. */
    method WriteUntilBufferFull(socket: Socket, txSpace: uint32)
      requires Valid() && socket.connected && socket.notifies
      modifies this`currentTxBytes, socket`available, socket`accepted, socket`closes, socket`refusals
      ensures Valid() && Callback(old(State(socket)), State(socket))
      ensures currentTxBytes == TOTAL_TX_BYTES || socket.available == 0 || socket.refusals == old(socket.refusals) + 1
      ensures socket.refusals <= old(socket.refusals) + 1
    {
      while currentTxBytes < TOTAL_TX_BYTES && socket.available > 0
        invariant Valid() && old(currentTxBytes) <= currentTxBytes
        invariant socket.accepted == old(socket.accepted) + AlphabetRange(old(currentTxBytes) as nat, currentTxBytes as nat)
        invariant socket.closes == old(socket.closes) && socket.refusals == old(socket.refusals)
        decreases TOTAL_TX_BYTES - currentTxBytes
      {
        var left := TOTAL_TX_BYTES - currentTxBytes;
        var dataOffset := currentTxBytes % WRITE_SIZE;
        var toWrite := WRITE_SIZE - dataOffset;
        toWrite := if toWrite < left then toWrite else left;
        toWrite := if toWrite < socket.available then toWrite else socket.available;
        var amountSent := socket.Send(data, dataOffset, toWrite);
        if amountSent < 0 {
          return;
        }
        SendContinues(data[..], old(socket.accepted), old(currentTxBytes) as nat, currentTxBytes as nat, amountSent as nat);
        currentTxBytes := currentTxBytes + amountSent as uint32;
      }
      if currentTxBytes >= TOTAL_TX_BYTES {
        socket.Close();
      }
    }

    /** Connects, registers for callbacks, and makes the first write. */
    method StartFlow(socket: Socket)
      requires Valid()
      modifies this`currentTxBytes, socket
      ensures Valid() && socket.connected && socket.notifies
      ensures Callback(old(State(socket)), State(socket))
    {
      socket.connected := true;
      socket.notifies := true;
      WriteUntilBufferFull(socket, socket.available);
    }
  }
}
