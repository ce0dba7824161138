/** A resumable sender of a fixed number of patterned bytes over a socket that may refuse a
    write, accept part of it, or run out of buffer space at any moment. */
module LargeTransfer {

  const TOTAL_TX_BYTES := 2000000
  const WRITE_SIZE := 1040

  type Byte = b: int | 0 <= b < 256

  function PatternByte(k: nat): Byte {
    97 + k % 26
  }

  /** The stream to be sent, up to its first n bytes. */
  ghost function Stream(n: nat): (s: seq<Byte>)
    ensures |s| == n && forall k :: 0 <= k < n ==> s[k] == PatternByte(k)
  {
    if n == 0 then [] else Stream(n - 1) + [PatternByte(n - 1)]
  }

  /** The stream begins with the letters from a to z, and repeats them. */
  lemma Letters(n: nat, k: nat)
    requires k < n
    ensures k < 26 ==> Stream(n)[k] == 'a' as int + k <= 'z' as int
    ensures k >= 26 ==> Stream(n)[k] == Stream(n)[k - 26]
  {
    hide Stream;
    assert Stream(n)[k] == PatternByte(k);
  }

  /** The buffer is a whole number of patterns long, so any position of the stream can be
      served from the position's remainder in the buffer. */
  lemma PatternRepeats(k: nat, offset: nat, i: nat)
    requires offset == k % WRITE_SIZE
    ensures PatternByte(offset + i) == PatternByte(k + i)
  {
    var q := k / WRITE_SIZE;
    assert k + i == offset + i + 26 * (40 * q);
    Periodic(offset + i, 40 * q);
  }

  lemma {:induction false} Periodic(x: nat, q: nat)
    ensures (x + 26 * q) % 26 == x % 26
    decreases q
  {
    if q > 0 {
      Periodic(x, q - 1);
      assert x + 26 * q == (x + 26 * (q - 1)) + 26;
    }
  }

  function Min(a: nat, b: nat): nat {
    if a < b then a else b
  }

  // ---------- what the socket lets through ----------

  /** How much is offered at a position of the stream when there is the given space. */
  function Offered(sent: nat, space: nat): nat
    requires sent <= TOTAL_TX_BYTES
  {
    Min(Min(WRITE_SIZE - sent % WRITE_SIZE, TOTAL_TX_BYTES - sent), space)
  }

  /** A write offers as much as the space, the rest of the buffer and the rest of the stream allow. */
  lemma OfferedIsMost(sent: nat, space: nat, n: nat)
    requires sent <= TOTAL_TX_BYTES
    ensures n <= Offered(sent, space) <==>
      n <= space && sent % WRITE_SIZE + n <= WRITE_SIZE && sent + n <= TOTAL_TX_BYTES
  {
  }

  /** How much of it is taken; none for a refusal. */
  function Taken(willingness: int, offered: nat): nat {
    if willingness <= 0 then 0 else Min(willingness, offered)
  }

  /** The moments a callback starts and ends at, and the bytes accepted by then. */
  datatype Progress = Progress(clock: nat, sent: nat)

  /** One callback: writes go on until all is sent, the buffer is full or a write is refused. */
  ghost function Callback(space: nat -> nat, willingness: nat -> int, p: Progress): (r: Progress)
    requires p.sent <= TOTAL_TX_BYTES
    ensures p.sent <= r.sent <= TOTAL_TX_BYTES && p.clock <= r.clock
    decreases TOTAL_TX_BYTES - p.sent
  {
    if p.sent == TOTAL_TX_BYTES || space(p.clock) == 0 then p
    else
      var taken := Taken(willingness(p.clock), Offered(p.sent, space(p.clock)));
      if taken == 0 then Progress(p.clock + 1, p.sent)
      else Callback(space, willingness, Progress(p.clock + 1, p.sent + taken))
  }

  /** After the first attempt and a callback for each wait, which lets that much time pass. */
  ghost function Exchange(space: nat -> nat, willingness: nat -> int, clock: nat, waits: seq<nat>): (r: Progress)
    ensures r.sent <= TOTAL_TX_BYTES && clock <= r.clock
    decreases |waits|, 1
  {
    if waits == [] then Callback(space, willingness, Progress(clock, 0))
    else Callback(space, willingness, Waited(space, willingness, clock, waits))
  }

  /** Where the last callback starts: what had been sent, and the time after the wait. */
  ghost function Waited(space: nat -> nat, willingness: nat -> int, clock: nat, waits: seq<nat>): (r: Progress)
    requires waits != []
    ensures r.sent <= TOTAL_TX_BYTES && clock <= r.clock
    decreases |waits|, 0
  {
    var before := Exchange(space, willingness, clock, waits[..|waits| - 1]);
    before.(clock := before.clock + waits[|waits| - 1])
  }

  lemma CallbackStops(space: nat -> nat, willingness: nat -> int, p: Progress)
    requires p.sent <= TOTAL_TX_BYTES && (p.sent == TOTAL_TX_BYTES || space(p.clock) == 0)
    ensures Callback(space, willingness, p) == p
  {
  }

  lemma CallbackGoesOn(space: nat -> nat, willingness: nat -> int, p: Progress)
    requires p.sent < TOTAL_TX_BYTES && space(p.clock) > 0
    ensures var offered := Offered(p.sent, space(p.clock));
      var taken := Taken(willingness(p.clock), offered);
      && offered > 0 && taken <= offered && p.sent + taken <= TOTAL_TX_BYTES
      && Callback(space, willingness, p) ==
         if taken == 0 then Progress(p.clock + 1, p.sent)
         else Callback(space, willingness, Progress(p.clock + 1, p.sent + taken))
  {
  }

  // ---------- progress ----------

  /** The socket has room and does not refuse. */
  ghost predicate Ready(space: nat -> nat, willingness: nat -> int, clock: nat) {
    space(clock) > 0 && willingness(clock) > 0
  }

  /** A callback gets bytes through iff something is left to send and the socket is ready when it
      comes. */
  lemma CallbackProgress(space: nat -> nat, willingness: nat -> int, p: Progress)
    requires p.sent <= TOTAL_TX_BYTES
    ensures Callback(space, willingness, p).sent > p.sent
       <==> p.sent < TOTAL_TX_BYTES && Ready(space, willingness, p.clock)
  {
    if p.sent < TOTAL_TX_BYTES && space(p.clock) > 0 {
      assert Offered(p.sent, space(p.clock)) > 0;
    }
  }

  /** Stopping short of the end means the buffer is full or the last write was refused. */
  lemma {:induction false} StopsShort(space: nat -> nat, willingness: nat -> int, p: Progress)
    requires p.sent <= TOTAL_TX_BYTES
    ensures var r := Callback(space, willingness, p);
      r.sent < TOTAL_TX_BYTES ==> space(r.clock) == 0 || (r.clock > p.clock && willingness(r.clock - 1) <= 0)
    decreases TOTAL_TX_BYTES - p.sent
  {
    if p.sent < TOTAL_TX_BYTES && space(p.clock) > 0 {
      CallbackGoesOn(space, willingness, p);
      var taken := Taken(willingness(p.clock), Offered(p.sent, space(p.clock)));
      if taken > 0 {
        StopsShort(space, willingness, Progress(p.clock + 1, p.sent + taken));
      }
    }
  }

  /** How many of the callbacks, the first attempt not counted, find the socket ready. */
  ghost function ReadyCount(space: nat -> nat, willingness: nat -> int, clock: nat, waits: seq<nat>): nat {
    if waits == [] then 0
    else
      ReadyCount(space, willingness, clock, waits[..|waits| - 1])
      + if Ready(space, willingness, Waited(space, willingness, clock, waits).clock) then 1 else 0
  }

  /** Each callback that finds the socket ready gets at least one more byte through. */
  lemma {:induction false} ReadyCallbacksSend(space: nat -> nat, willingness: nat -> int, clock: nat, waits: seq<nat>)
    ensures Exchange(space, willingness, clock, waits).sent
         >= Min(TOTAL_TX_BYTES, ReadyCount(space, willingness, clock, waits))
  {
    hide Callback, Ready;
    if waits != [] {
      ReadyCallbacksSend(space, willingness, clock, waits[..|waits| - 1]);
      CallbackProgress(space, willingness, Waited(space, willingness, clock, waits));
    }
  }

  /** So enough of them send everything. */
  lemma EnoughCallbacks(space: nat -> nat, willingness: nat -> int, clock: nat, waits: seq<nat>)
    requires ReadyCount(space, willingness, clock, waits) >= TOTAL_TX_BYTES
    ensures Exchange(space, willingness, clock, waits).sent == TOTAL_TX_BYTES
  {
    ReadyCallbacksSend(space, willingness, clock, waits);
    hide Exchange, ReadyCount;
  }

  ghost predicate ReadySince(space: nat -> nat, willingness: nat -> int, clock: nat) {
    exists later: nat :: clock <= later && Ready(space, willingness, later)
  }

  ghost predicate AlwaysReadyAgain(space: nat -> nat, willingness: nat -> int) {
    forall clock: nat :: ReadySince(space, willingness, clock)
  }

  /** From a full buffer the exchange resumes: if the socket is always ready again some time,
      callbacks that wait for it complete the transfer. */
  lemma {:induction false} CompletesFrom(space: nat -> nat, willingness: nat -> int, clock: nat, waits: seq<nat>)
    returns (all: seq<nat>)
    requires AlwaysReadyAgain(space, willingness)
    ensures waits <= all && Exchange(space, willingness, clock, all).sent == TOTAL_TX_BYTES
    decreases TOTAL_TX_BYTES - Exchange(space, willingness, clock, waits).sent
  {
    var p := Exchange(space, willingness, clock, waits);
    if p.sent == TOTAL_TX_BYTES {
      all := waits;
    } else {
      assert ReadySince(space, willingness, p.clock);
      var later: nat :| p.clock <= later && Ready(space, willingness, later);
      var wait := later - p.clock;
      var more := waits + [wait];
      assert more[..|more| - 1] == waits;
      assert Waited(space, willingness, clock, more) == p.(clock := p.clock + wait);
      CallbackProgress(space, willingness, p.(clock := p.clock + wait));
      all := CompletesFrom(space, willingness, clock, more);
    }
  }

  // ---------- the socket and the sender ----------

  /** A connected socket. What it does is up to two arbitrary functions of the moment: the space
      it has, and how much of a write it is willing to take. Time passes with every write, and
      between callbacks. */
  class Socket {
    const space: nat -> nat
    const willingness: nat -> int
    var clock: nat
    var accepted: seq<Byte>
    var closes: nat

    constructor (space: nat -> nat, willingness: nat -> int)
      ensures this.space == space && this.willingness == willingness && clock == 0
      ensures accepted == [] && closes == 0
    {
      this.space, this.willingness, clock := space, willingness, 0;
      accepted, closes := [], 0;
    }

    method GetTxAvailable() returns (n: nat)
      ensures n == space(clock)
    {
      n := space(clock);
    }

    /** -1, or the number of leading bytes taken, at least one. */
    method Send(bytes: seq<Byte>) returns (amount: int)
      requires bytes != [] && |bytes| <= space(clock)
      modifies this
      ensures closes == old(closes) && clock == old(clock) + 1
      ensures var taken := Taken(willingness(old(clock)), |bytes|);
        amount == (if taken == 0 then -1 else taken) && accepted == old(accepted) + bytes[..taken]
    {
      var w := willingness(clock);
      clock := clock + 1;
      amount := if w <= 0 then -1 else if w < |bytes| then w else |bytes|;
      accepted := accepted + if amount == -1 then [] else bytes[..amount];
    }

    /** Time passes: the network takes bytes out of the buffer, or lets it stay as it is. */
    method Drain(wait: nat)
      modifies this
      ensures clock == old(clock) + wait && accepted == old(accepted) && closes == old(closes)
    {
      clock := clock + wait;
    }

    method Close()
      modifies this
      ensures closes == old(closes) + 1 && accepted == old(accepted) && clock == old(clock)
    {
      closes := closes + 1;
    }
  }

  class Sender {
    const data: array<Byte>
    const localSocket: Socket
    var currentTxBytes: nat

    /** What the socket took is exactly the part of the stream counted so far, never more
        than all of it, and it was closed only after all of it. */
    ghost predicate Valid()
      reads this, data, localSocket
    {
      && data.Length == WRITE_SIZE && data[..] == Stream(WRITE_SIZE)
      && currentTxBytes <= TOTAL_TX_BYTES
      && localSocket.accepted == Stream(currentTxBytes)
      && (localSocket.closes > 0 ==> currentTxBytes == TOTAL_TX_BYTES)
    }

    ghost function Now(): Progress
      reads this, localSocket
    {
      Progress(localSocket.clock, currentTxBytes)
    }

    constructor (localSocket: Socket)
      requires localSocket.accepted == [] && localSocket.closes == 0
      ensures Valid() && this.localSocket == localSocket && currentTxBytes == 0 && fresh(data)
    {
      data := new Byte[WRITE_SIZE];
      this.localSocket := localSocket;
      currentTxBytes := 0;
      new;
      for i := 0 to WRITE_SIZE
        invariant data[..i] == Stream(i)
        invariant currentTxBytes == 0 && localSocket.accepted == [] && localSocket.closes == 0
      {
        data[i] := PatternByte(i);
      }
      assert data[..] == data[..WRITE_SIZE];
    }

    /** One callback, however the socket behaves. It gets as far as the socket lets it, adding
        bytes in stream order only; then all is sent and the socket is closed once more, or not
        all is sent and the socket is still open. */
    method WriteUntilBufferFull(txSpace: nat)
      requires Valid()
      modifies this, localSocket
      ensures Valid() && Now() == Callback(localSocket.space, localSocket.willingness, old(Now()))
      ensures localSocket.closes == old(localSocket.closes) + if currentTxBytes == TOTAL_TX_BYTES then 1 else 0
    {
      hide Stream, PatternByte, Callback, Taken;
      ghost var start := Now();
      var available := localSocket.GetTxAvailable();
      while currentTxBytes < TOTAL_TX_BYTES && available > 0
        invariant Valid() && available == localSocket.space(localSocket.clock)
        invariant localSocket.closes == old(localSocket.closes)
        invariant Callback(localSocket.space, localSocket.willingness, start)
               == Callback(localSocket.space, localSocket.willingness, Now())
        decreases TOTAL_TX_BYTES - currentTxBytes
      {
        var left := TOTAL_TX_BYTES - currentTxBytes;
        var dataOffset := currentTxBytes % WRITE_SIZE;
        var toWrite := WRITE_SIZE - dataOffset;
        toWrite := Min(toWrite, left);
        toWrite := Min(toWrite, available);
        ghost var sent, before := currentTxBytes, localSocket.accepted;
        assert toWrite == Offered(sent, available);
        CallbackGoesOn(localSocket.space, localSocket.willingness, Now());
        var bytes := data[dataOffset..dataOffset + toWrite];
        var amountSent := localSocket.Send(bytes);
        if amountSent < 0 {
          assert before + bytes[..0] == before;
          return;
        }
        SliceFits(bytes, sent, dataOffset, amountSent);
        assert localSocket.accepted == Stream(sent + amountSent);
        currentTxBytes := currentTxBytes + amountSent;
        available := localSocket.GetTxAvailable();
      }
      CallbackStops(localSocket.space, localSocket.willingness, Now());
      if currentTxBytes >= TOTAL_TX_BYTES {
        localSocket.Close();
      }
    }
  }

  /** The part of the buffer offered continues the stream where it stands. */
  lemma SliceFits(bytes: seq<Byte>, sent: nat, offset: nat, amount: nat)
    requires offset == sent % WRITE_SIZE && offset + |bytes| <= WRITE_SIZE && amount <= |bytes|
    requires bytes == Stream(WRITE_SIZE)[offset..offset + |bytes|]
    ensures Stream(sent) + bytes[..amount] == Stream(sent + amount)
  {
    forall i | 0 <= i < amount
      ensures bytes[i] == PatternByte(sent + i)
    {
      PatternRepeats(sent, offset, i);
    }
  }

  /** The whole exchange: the first attempt, then a callback after each wait. It gets exactly as
      far as the socket lets it, and the socket has been closed iff it has the whole stream. */
  method Transfer(localSocket: Socket, waits: seq<nat>) returns (sender: Sender)
    requires localSocket.accepted == [] && localSocket.closes == 0
    modifies localSocket
    ensures fresh(sender) && sender.Valid() && sender.localSocket == localSocket
    ensures sender.Now() == Exchange(localSocket.space, localSocket.willingness, old(localSocket.clock), waits)
    ensures localSocket.closes > 0 <==> sender.currentTxBytes == TOTAL_TX_BYTES
    ensures localSocket.closes > 0 <==> localSocket.accepted == Stream(TOTAL_TX_BYTES)
  {
    hide Stream, Callback;
    sender := new Sender(localSocket);
    var available := localSocket.GetTxAvailable();
    sender.WriteUntilBufferFull(available);
    ghost var clock := old(localSocket.clock);
    for i := 0 to |waits|
      invariant sender.Valid() && sender.localSocket == localSocket && fresh(sender)
      invariant sender.currentTxBytes == TOTAL_TX_BYTES ==> localSocket.closes > 0
      invariant sender.Now() == Exchange(localSocket.space, localSocket.willingness, clock, waits[..i])
    {
      assert waits[..i + 1][..i] == waits[..i];
      localSocket.Drain(waits[i]);
      available := localSocket.GetTxAvailable();
      sender.WriteUntilBufferFull(available);
    }
    assert waits[..|waits|] == waits;
  }
}
