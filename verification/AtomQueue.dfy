/**
  The single-producer single-consumer byte ring. One side pushes, the other pops, and their
  individual loads, buffer accesses and stores interleave in any order.
 */
module AtomQueue {
  import opened Common

  // ---------------------------------------------------------------- bit masks

  /** Bitwise conjunction of natural numbers. */
  function And(x: nat, y: nat): nat {
    if x == 0 || y == 0 then 0 else (if x % 2 == 1 && y % 2 == 1 then 1 else 0) + 2 * And(x / 2, y / 2)
  }

  ghost predicate IsPower(n: nat) { exists k: nat :: n == Pow2(k) }

  /** Masking with a power of two less one is the remainder. */
  lemma {:induction false} MaskIsModulo(x: nat, k: nat)
    ensures And(x, Pow2(k) - 1) == x % Pow2(k)
    decreases k
  {
    hide And;
    AndZero(x);
    AndZero(Pow2(k) - 1);
    if x == 0 {
      Remainder(0, Pow2(k), 0, 0);
    } else if k == 0 {
      assert x % 1 == 0;
    } else {
      var p := Pow2(k - 1);
      assert Pow2(k) == 2 * p;
      AndOdd(x, p);
      MaskIsModulo(x / 2, k - 1);
      HalveModulo(x, p);
    }
  }

  lemma AndZero(x: nat)
    ensures And(x, 0) == 0 == And(0, x)
  {}

  lemma AndOdd(x: nat, p: nat)
    requires x > 0 && p > 0
    ensures And(x, 2 * p - 1) == x % 2 + 2 * And(x / 2, p - 1)
  {}

  lemma HalveModulo(x: nat, p: nat)
    requires p > 0
    ensures x % (2 * p) == x % 2 + 2 * ((x / 2) % p)
  {
    var q, t := (x / 2) / p, (x / 2) % p;
    assert x / 2 == p * q + t;
    Doubled(p, q);
    Remainder(x, 2 * p, q, x % 2 + 2 * t);
  }

  lemma Doubled(p: nat, q: nat)
    ensures 2 * (p * q) == (2 * p) * q
  {}

  /** The creation test accepts exactly the powers of two. */
  lemma {:induction false} TestIsPower(n: nat)
    requires n > 0
    ensures And(n, n - 1) == 0 <==> IsPower(n)
  {
    if n == 1 {
      assert n == Pow2(0);
    } else if n % 2 == 1 {
      assert And(n, n - 1) == 2 * And(n / 2, (n - 1) / 2) && (n - 1) / 2 == n / 2;
      AndSelf(n / 2);
      forall k: nat ensures n != Pow2(k) { assert k > 0 ==> Pow2(k) == 2 * Pow2(k - 1); }
    } else {
      assert (n - 1) / 2 == n / 2 - 1 && And(n, n - 1) == 2 * And(n / 2, n / 2 - 1);
      TestIsPower(n / 2);
      if IsPower(n / 2) {
        var k: nat :| n / 2 == Pow2(k);
        assert n == Pow2(k + 1);
      }
      if IsPower(n) {
        var k: nat :| n == Pow2(k);
        assert k > 0 && n / 2 == Pow2(k - 1);
      }
    }
  }

  lemma {:induction false} AndSelf(x: nat)
    ensures And(x, x) == x
  {
    if x > 0 { AndSelf(x / 2); }
  }

  // -------------------------------------------------------------------- steps

  /** Where the producer is inside a push. */
  datatype Producer = Resting | LoadedHead(data: byte, head: nat) | SawRoom(data: byte, head: nat)
    | Wrote(data: byte, head: nat)

  /** Where the consumer is inside a pop. */
  datatype Consumer = Waiting | LoadedTail(tail: nat) | SawData(tail: nat) | HaveByte(tail: nat, data: byte)

  /** The ring, both sides, and the bytes whose push and pop have taken effect. */
  datatype State = State(buf: seq<byte>, mask: nat, head: nat, tail: nat, producer: Producer, consumer: Consumer,
                         pushed: seq<byte>, popped: seq<byte>)

  /** One atomic action of one side. */
  datatype Move = BeginPush(data: byte) | LoadTail | Write | StoreHead | BeginPop | LoadHead | Read | StoreTail

  function Start(buf: seq<byte>): State
    requires |buf| > 0
  {
    State(buf, |buf| - 1, 0, 0, Resting, Waiting, [], [])
  }

  /** A move that the side's position does not allow leaves the state as it is. */
  function Step(s: State, m: Move): State {
    match m
    case BeginPush(data) => if s.producer.Resting? then s.(producer := LoadedHead(data, s.head)) else s
    case LoadTail =>
      if !s.producer.LoadedHead? then s
      else if And(s.producer.head + 1, s.mask) == s.tail then s.(producer := Resting)
      else s.(producer := SawRoom(s.producer.data, s.producer.head))
    case Write =>
      if !s.producer.SawRoom? || s.producer.head >= |s.buf| then s
      else s.(buf := s.buf[s.producer.head := s.producer.data], producer := Wrote(s.producer.data, s.producer.head))
    case StoreHead =>
      if !s.producer.Wrote? then s
      else s.(head := And(s.producer.head + 1, s.mask), producer := Resting, pushed := s.pushed + [s.producer.data])
    case BeginPop => if s.consumer.Waiting? then s.(consumer := LoadedTail(s.tail)) else s
    case LoadHead =>
      if !s.consumer.LoadedTail? then s
      else if s.consumer.tail == s.head then s.(consumer := Waiting)
      else s.(consumer := SawData(s.consumer.tail))
    case Read =>
      if !s.consumer.SawData? || s.consumer.tail >= |s.buf| then s
      else s.(consumer := HaveByte(s.consumer.tail, s.buf[s.consumer.tail]))
    case StoreTail =>
      if !s.consumer.HaveByte? then s
      else s.(tail := And(s.consumer.tail + 1, s.mask), consumer := Waiting, popped := s.popped + [s.consumer.data])
  }

  function Exec(buf: seq<byte>, moves: seq<Move>): State
    requires |buf| > 0
  {
    if moves == [] then Start(buf) else Step(Exec(buf, moves[..|moves|-1]), moves[|moves|-1])
  }

  // ---------------------------------------------------------------- invariant

  /** The bytes in flight, oldest first. */
  function Contents(s: State): seq<byte> {
    if |s.popped| <= |s.pushed| then s.pushed[|s.popped|..] else []
  }

  /** Every byte in flight sits in its slot. */
  ghost predicate Stored(buf: seq<byte>, pushed: seq<byte>, from: nat) {
    |buf| > 0 && forall i | from <= i < |pushed| :: buf[i % |buf|] == pushed[i]
  }

  ghost predicate Counted(s: State) {
    && IsPower(|s.buf|) && s.mask == |s.buf| - 1
    && s.popped <= s.pushed && |s.pushed| - |s.popped| < |s.buf|
    && s.head == |s.pushed| % |s.buf| && s.tail == |s.popped| % |s.buf|
  }

  ghost predicate Inv(s: State) {
    && Counted(s) && Stored(s.buf, s.pushed, |s.popped|)
    && (!s.producer.Resting? ==> s.producer.head == s.head)
    && (s.producer.SawRoom? || s.producer.Wrote? ==> |s.pushed| - |s.popped| < |s.buf| - 1)
    && (s.producer.Wrote? ==> s.buf[s.head] == s.producer.data)
    && (!s.consumer.Waiting? ==> s.consumer.tail == s.tail)
    && (s.consumer.SawData? || s.consumer.HaveByte? ==> |s.popped| < |s.pushed|)
    && (s.consumer.HaveByte? ==> s.consumer.data == s.pushed[|s.popped|])
  }

  /** The masked successor of a slot is the slot of the successor. */
  lemma NextSlot(i: nat, n: nat)
    requires IsPower(n)
    ensures n > 0 && And(i % n + 1, n - 1) == (i + 1) % n
  {
    hide And;
    hide Pow2;
    var k: nat :| n == Pow2(k);
    MaskIsModulo(i % n + 1, k);
    Successor(i, n);
  }

  lemma Successor(i: nat, n: nat)
    requires n > 0
    ensures (i % n + 1) % n == (i + 1) % n
  {
    var q, r := i / n, i % n;
    assert i == n * q + r;
    if r + 1 < n {
      Remainder(i + 1, n, q, r + 1);
      Remainder(r + 1, n, 0, r + 1);
    } else {
      assert n * (q + 1) == n * q + n;
      Remainder(i + 1, n, q + 1, 0);
      Remainder(n, n, 1, 0);
    }
  }

  /** Two counts less than a lap apart share a slot only if they are equal. */
  lemma SlotsDiffer(i: nat, j: nat, n: nat)
    requires i < j < i + n
    ensures i % n != j % n
  {
    assert i == n * (i / n) + i % n && j == n * (j / n) + j % n;
    if i / n < j / n { Ahead(n, i / n, j / n); }
    if j / n < i / n { Ahead(n, j / n, i / n); }
  }

  lemma WriteKeeps(s: State)
    requires Inv(s) && s.producer.SawRoom?
    ensures Inv(Step(s, Write)) && Step(s, Write).producer.Wrote?
  {
    var n := |s.buf|;
    forall i | |s.popped| <= i < |s.pushed| ensures Step(s, Write).buf[i % n] == s.pushed[i] {
      SlotsDiffer(i, |s.pushed|, n);
    }
  }

  lemma StoresKeep(s: State)
    requires Inv(s)
    ensures Inv(Step(s, StoreHead)) && Inv(Step(s, StoreTail))
  {
    NextSlot(|s.pushed|, |s.buf|);
    NextSlot(|s.popped|, |s.buf|);
  }

  /** What either side finds out: a refused push saw a full ring, a refused pop an empty one. */
  lemma Refusals(s: State)
    requires Inv(s)
    ensures s.producer.LoadedHead? ==> (Step(s, LoadTail).producer.Resting? <==> |Contents(s)| == |s.buf| - 1)
    ensures s.consumer.LoadedTail? ==> (Step(s, LoadHead).consumer.Waiting? <==> Contents(s) == [])
  {
    var n := |s.buf|;
    NextSlot(|s.pushed|, n);
    if |s.popped| < |s.pushed| { SlotsDiffer(|s.popped|, |s.pushed|, n); }
    if |s.pushed| + 1 < |s.popped| + n { SlotsDiffer(|s.popped|, |s.pushed| + 1, n); } else { Lap(|s.popped|, n); }
  }

  lemma Lap(i: nat, n: nat)
    requires n > 0
    ensures (i + n) % n == i % n
  {
    var q := i / n;
    assert i == n * q + i % n && n * (q + 1) == n * q + n;
    Remainder(i + n, n, q + 1, i % n);
  }

  lemma StepKeeps(s: State, m: Move)
    requires Inv(s)
    ensures Inv(Step(s, m))
  {
    if m == Write {
      if s.producer.SawRoom? { WriteKeeps(s); }
    } else if m == StoreHead || m == StoreTail {
      StoresKeep(s);
    } else if m == LoadTail || m == LoadHead {
      Refusals(s);
    }
  }

  lemma {:induction false} Reached(buf: seq<byte>, moves: seq<Move>)
    requires IsPower(|buf|) && |buf| > 0
    ensures Inv(Exec(buf, moves)) && |Exec(buf, moves).buf| == |buf|
  {
    if moves != [] {
      Reached(buf, moves[..|moves|-1]);
      StepKeeps(Exec(buf, moves[..|moves|-1]), moves[|moves|-1]);
    }
  }

  // ------------------------------------------------------------- main results

  /**
    On every interleaving the bytes that came out are, in order, the first of those that went in, and the rest
    fit in size - 1 slots.
   */
  lemma RingIsFifo(buf: seq<byte>, moves: seq<Move>)
    requires IsPower(|buf|) && |buf| > 0
    ensures var s := Exec(buf, moves); s.popped + Contents(s) == s.pushed && |Contents(s)| <= |buf| - 1
  {
    hide Exec;
    Reached(buf, moves);
  }

  /** Each atomic step is one step of a bounded queue: an append, a removal of the first byte, or nothing. */
  lemma StepRefines(s: State, m: Move)
    requires Inv(s)
    ensures m == StoreHead && s.producer.Wrote? ==>
              |Contents(s)| < |s.buf| - 1 && Contents(Step(s, m)) == Contents(s) + [s.producer.data]
              && Step(s, m).popped == s.popped
    ensures m == StoreTail && s.consumer.HaveByte? ==>
              Contents(s) == [s.consumer.data] + Contents(Step(s, m))
              && Step(s, m).popped == s.popped + [s.consumer.data]
    ensures !(m == StoreHead && s.producer.Wrote?) && !(m == StoreTail && s.consumer.HaveByte?) ==>
              Contents(Step(s, m)) == Contents(s) && Step(s, m).popped == s.popped
  {
    hide And;
    hide IsPower;
    hide Stored;
    var c := |s.popped|;
    if m == StoreHead && s.producer.Wrote? {
      assert (s.pushed + [s.producer.data])[c..] == s.pushed[c..] + [s.producer.data];
    } else if m == StoreTail && s.consumer.HaveByte? {
      assert s.pushed[c..] == [s.pushed[c]] + s.pushed[c + 1..];
    }
  }

  /** A write never lands on a byte that is still to be read. */
  lemma WriteOverwritesNothing(s: State, i: nat)
    requires Inv(s) && s.producer.SawRoom? && |s.popped| <= i < |s.pushed|
    ensures s.producer.head < |s.buf| && s.producer.head != i % |s.buf|
  {
    SlotsDiffer(i, |s.pushed|, |s.buf|);
  }

  // ----------------------------------------------------- the calls themselves

  class Ring {
    var buf: array<byte>
    var mask: nat
    var head: nat
    var tail: nat
    ghost var pushed: seq<byte>
    ghost var popped: seq<byte>

    ghost function View(): State
      reads this, buf
    {
      State(buf[..], mask, head, tail, Resting, Waiting, pushed, popped)
    }

    ghost predicate Valid()
      reads this, buf
    {
      Inv(View())
    }

    /** A ring over a caller's buffer exists exactly for power-of-two sizes. */
    constructor (buffer: array<byte>)
      requires buffer.Length > 0 && And(buffer.Length, buffer.Length - 1) == 0
      ensures Valid() && buf == buffer && Contents(View()) == []
    {
      buf, mask, head, tail, pushed, popped := buffer, buffer.Length - 1, 0, 0, [], [];
      new;
      TestIsPower(buffer.Length);
    }

    /** Appends a byte unless the ring is full. */
    method Push(data: byte) returns (ok: bool)
      requires Valid()
      modifies this`head, this`pushed, buf
      ensures Valid() && ok == (|old(Contents(View()))| < buf.Length - 1)
      ensures Contents(View()) == old(Contents(View())) + (if ok then [data] else [])
    {
      ghost var s := View().(producer := LoadedHead(data, head));
      var h := head;
      var next := And(h + 1, mask);
      Refusals(s);
      if next == tail { return false; }
      ghost var room := Step(s, LoadTail);
      WriteKeeps(room);
      StoresKeep(Step(room, Write));
      buf[h] := data;
      head := next;
      pushed := pushed + [data];
      assert View() == Step(Step(room, Write), StoreHead);
      ok := true;
    }

    /** Takes the oldest byte, or reports an empty ring. */
    method Pop() returns (r: int)
      requires Valid()
      modifies this`tail, this`popped
      ensures Valid() && (r == -1 <==> old(Contents(View())) == [])
      ensures r != -1 ==> old(Contents(View())) == [r] + Contents(View())
      ensures r == -1 ==> Contents(View()) == old(Contents(View()))
    {
      ghost var s := View().(consumer := LoadedTail(tail));
      var t := tail;
      Refusals(s);
      if t == head { return -1; }
      var data := buf[t];
      ghost var read := Step(Step(s, LoadHead), Read);
      StepKeeps(Step(s, LoadHead), Read);
      StoresKeep(read);
      tail := And(t + 1, mask);
      popped := popped + [data];
      assert View() == Step(read, StoreTail);
      StepRefines(read, StoreTail);
      r := data;
    }
  }

  /** Creation succeeds exactly for nonempty power-of-two buffers. */
  method Init(buffer: array<byte>) returns (ring: Ring?)
    ensures ring != null <==> buffer.Length > 0 && IsPower(buffer.Length)
    ensures ring != null ==> ring.Valid() && ring.buf == buffer && Contents(ring.View()) == []
  {
    if buffer.Length > 0 { TestIsPower(buffer.Length); }
    if buffer.Length == 0 || And(buffer.Length, buffer.Length - 1) != 0 { return null; }
    ring := new Ring(buffer);
  }
}
