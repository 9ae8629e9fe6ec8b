/**
 The per-connection ring of received packets (internal/comet/ring.go): one goroutine fills slots,
 another drains them, and both indices are uint64 counters that run freely and wrap around.
 */
module Ring {
  import opened Common
  import opened Bits
  import opened Bytes
  import opened Protocol

  /** The exponents are handed out as variables: the solver would unroll Pow2 of a literal. */
  lemma WordIsPow2() returns (top: nat)
    ensures top == 63 && Pow2(top) == M64 / 2 && Pow2(top + 1) == M64
  {
    var k: nat, v := 2, 4;
    assert Pow2(k) == 2 * Pow2(k - 1) == 4 * Pow2(k - 2);
    for i := 0 to 5
      invariant k >= 2 && Pow2(k) == v
      invariant k == [2, 4, 8, 16, 32, 64][i] && v == [4, 16, 256, 0x1_0000, 0x1_0000_0000, M64][i]
    {
      Pow2Add(k, k);
      k, v := k + k, v * v;
    }
    top := k - 1;
  }

  ghost predicate LeastPow2(r: nat, num: nat) {
    && IsPow2(r) && num <= r
    && forall k: nat :: num <= Pow2(k) ==> r <= Pow2(k)
  }

  /** Clears low bits until one is left. */
  method HighestBit(request: nat) returns (num: nat)
    requires request > 0
    ensures 0 < num <= request && IsPow2(num)
    ensures forall k: nat :: Pow2(k) <= request ==> Pow2(k) <= num
  {
    num := request;
    ClearLowest(num);
    while And(num, num - 1) != 0
      invariant 0 < num <= request
      invariant And(num, num - 1) == 0 <==> IsPow2(num)
      invariant forall k: nat :: Pow2(k) <= request ==> Pow2(k) <= num
      decreases num
    {
      ClearLowest(num);
      num := And(num, num - 1);
      ClearLowest(num);
    }
  }

  /** In uint64 arithmetic: the least power of two not below the request, up to 2^63; beyond that 0. */
  method NormalizeRingSize(request: nat) returns (num: nat)
    requires request < M64
    ensures num < M64
    ensures LeastPow2(num, if request == 0 then 1 else request) <==> request <= M64 / 2
    ensures request > M64 / 2 ==> num == 0
  {
    num := if request == 0 then 1 else request;
    ghost var asked := num;
    ClearLowest(num);
    if And(num, num - 1) != 0 {
      num := HighestBit(num);
      RoundUp(num, asked);
      num := 2 * num % M64;
    } else {
      SelfLeast(num);
    }
  }

  lemma SelfLeast(num: nat)
    requires 0 < num < M64 && IsPow2(num)
    ensures LeastPow2(num, num) && num <= M64 / 2
  {
    SmallPow2(num);
  }

  /** Doubling the greatest power of two below a number that is not one itself. */
  lemma DoubleIsLeast(num: nat, asked: nat)
    requires 0 < num <= asked && IsPow2(num) && !IsPow2(asked)
    requires forall k: nat :: Pow2(k) <= asked ==> Pow2(k) <= num
    ensures LeastPow2(2 * num, asked)
  {
    var k: nat :| num == Pow2(k);
    assert Pow2(k + 1) == 2 * num;
    forall j: nat | asked <= Pow2(j) ensures 2 * num <= Pow2(j) {
      if j <= k {
        Pow2Monotone(j, k);
      } else {
        Pow2Monotone(k + 1, j);
      }
    }
  }

  lemma RoundUp(num: nat, asked: nat)
    requires 0 < num <= asked < M64 && IsPow2(num) && !IsPow2(asked)
    requires forall k: nat :: Pow2(k) <= asked ==> Pow2(k) <= num
    ensures asked <= M64 / 2 ==> 2 * num < M64 && LeastPow2(2 * num, asked)
    ensures asked > M64 / 2 ==> 2 * num == M64
  {
    DoubleIsLeast(num, asked);
    SmallPow2(num);
    var top := WordIsPow2();
    if asked > M64 / 2 {
      assert Pow2(top) <= num;
      assert 2 * num == M64;
    } else {
      assert num != M64 / 2;
    }
  }

  /** The slot a counter value uses: its remainder modulo the ring size, in linear form. */
  ghost function SlotOf(count: nat, num: nat): (slot: nat)
    requires num > 0
    ensures slot < num
  {
    if count < num then count else SlotOf(count - num, num)
  }

  lemma {:induction false} SlotOfIsMod(count: nat, num: nat)
    requires num > 0
    ensures SlotOf(count, num) == count % num
  {
    if count >= num {
      SlotOfIsMod(count - num, num);
      var q, r := (count - num) / num, (count - num) % num;
      assert count - num == num * q + r;
      assert (q + 1) * num == num * q + num;
      ModUnique(count, num, q + 1, r);
    } else {
      ModUnique(count, num, 0, count);
    }
  }

  lemma ModOfMod(count: nat, p: nat, q: nat)
    requires p > 0 && q > 0
    ensures p * q > 0 && count % (p * q) % p == count % p
  {
    MultipleFarFromZero(p, q);
    var m := p * q;
    var d, x := count / m, count % m;
    var y, r := x / p, x % p;
    assert count == m * d + x && x == p * y + r;
    assert m * d == (q * d) * p;
    assert (q * d + y) * p == (q * d) * p + y * p;
    ModUnique(count, p, q * d + y, r);
  }

  /** Masking the wrapped counter gives its slot. */
  lemma SlotOfCounter(count: nat, k: nat)
    requires k <= 63
    ensures And(count % M64, Pow2(k) - 1) == SlotOf(count, Pow2(k))
  {
    var top := WordIsPow2();
    Pow2Add(k, top + 1 - k);
    AndMask(count % M64, k);
    ModOfMod(count, Pow2(k), Pow2(top + 1 - k));
    SlotOfIsMod(count, Pow2(k));
  }

  lemma SlotOfPointer(count: nat, num: nat)
    requires 0 < num <= M64 / 2 && IsPow2(num)
    ensures And(count % M64, Unsigned(num - 1, M64)) == SlotOf(count, num)
  {
    assert Unsigned(num - 1, M64) == num - 1;
    SmallPow2(num);
    var k: nat :| k <= 63 && num == Pow2(k);
    SlotOfCounter(count, k);
  }

  /** The uint64 difference of two counters that are less than a word apart. */
  lemma WrappedDifference(w: nat, r: nat)
    requires r <= w < r + M64
    ensures (w % M64 - r % M64 + M64) % M64 == w - r
  {
    var a, b := w % M64, r % M64;
    assert a < M64 && b < M64;
  }

  /** Two counters less than a ring apart use different slots. */
  lemma {:induction false} SlotsDiffer(i: nat, j: nat, num: nat)
    requires num > 0 && i < j < i + num
    ensures SlotOf(i, num) != SlotOf(j, num)
    decreases i
  {
    if i >= num {
      SlotsDiffer(i - num, j - num, num);
    } else if j >= num {
      assert SlotOf(j, num) == SlotOf(j - num, num) == j - num;
    }
  }

  /** The slots a Go int asks for: converted to uint64, all negative sizes but the least come to none at all. */
  ghost predicate Sized(num: nat, size: int) {
    if -M64 / 2 < size < 0 then num == 0
    else LeastPow2(num, if size == 0 then 1 else if size < 0 then M64 / 2 else size)
  }

  lemma SizedByRequest(num: nat, size: int)
    requires -M64 / 2 <= size < M64 / 2
    requires var request := Unsigned(size, M64);
      && (LeastPow2(num, if request == 0 then 1 else request) <==> request <= M64 / 2)
      && (request > M64 / 2 ==> num == 0)
    ensures Sized(num, size)
  {
    assert Unsigned(size, M64) == if size < 0 then size + M64 else size;
  }

  class Ring {
    var rp: nat
    var num: nat
    var mask: nat
    var wp: nat
    var data: array<Packet>
    ghost var consumed: nat   // packets consumed since the reset
    ghost var committed: nat  // packets committed since the reset
    ghost var unread: seq<Packet> // the committed packets nobody has consumed, oldest first

    ghost predicate Valid()
      reads this, data
    {
      && num <= M64 / 2 && (num == 0 || IsPow2(num))
      && mask == Unsigned(num - 1, M64) && data.Length == num
      && rp == consumed % M64 && wp == committed % M64
      && consumed <= committed <= consumed + num
      && |unread| == committed - consumed
      && (forall c: nat :: consumed <= c < committed ==> data[SlotOf(c, num)] == unread[c - consumed])
    }

    ghost predicate Holds(slot: nat)
      requires Valid()
      reads this, data
    {
      exists c: nat :: consumed <= c < committed && slot == SlotOf(c, num)
    }

    constructor (size: int)
      requires -M64 / 2 <= size < M64 / 2
      ensures Valid() && unread == [] && fresh(data)
      ensures Sized(num, size)
    {
      var n := NormalizeRingSize(Unsigned(size, M64));
      rp, wp, num, mask := 0, 0, n, Unsigned(n as int - 1, M64);
      data := new Packet[n](_ => BLANK);
      consumed, committed, unread := 0, 0, [];
      new;
      SizedByRequest(n, size);
      SmallSize(n, size);
    }

    method Clear()
      modifies data
      ensures forall i :: 0 <= i < data.Length ==> data[i] == BLANK
    {
      for i := 0 to data.Length
        invariant forall j :: 0 <= j < i ==> data[j] == BLANK
      {
        data[i] := BLANK;
      }
    }

    /** Reset reuses the slots when the normalized size is unchanged. */
    method Reset(size: int)
      requires Valid() && -M64 / 2 <= size < M64 / 2
      modifies this, data
      ensures Valid() && unread == []
      ensures data == old(data) || fresh(data)
      ensures Sized(num, size)
      ensures forall i :: 0 <= i < data.Length ==> data[i] == BLANK
    {
      rp, wp := 0, 0;
      var n := NormalizeRingSize(Unsigned(size, M64));
      SizedByRequest(n, size);
      SmallSize(n, size);
      if data.Length != n {
        data := new Packet[n](_ => BLANK);
      } else {
        Clear();
      }
      num, mask := n, Unsigned(n as int - 1, M64);
      consumed, committed, unread := 0, 0, [];
    }

    /** The slot of the oldest unread packet; None is ErrRingEmpty. */
    method Get() returns (slot: Option<nat>)
      requires Valid()
      ensures slot.None? <==> unread == []
      ensures slot.Some? ==> slot.value < data.Length && data[slot.value] == unread[0]
    {
      SameCounter(committed, consumed);
      if rp == wp {
        return None;
      }
      SlotOfPointer(consumed, num);
      return Some(And(rp, mask));
    }

    method GetAdv()
      requires Valid() && unread != []
      modifies this
      ensures Valid() && data == old(data) && unread == old(unread)[1..]
    {
      rp := (rp + 1) % M64;
      consumed, unread := consumed + 1, unread[1..];
      NextCounter(consumed - 1);
    }

    /** The slot to fill next; None is ErrRingFull. A granted slot never holds an unread packet. */
    method Set() returns (slot: Option<nat>)
      requires Valid()
      ensures slot.None? <==> |unread| == num
      ensures slot.Some? ==> slot.value < data.Length && slot.value == SlotOf(committed, num) && !Holds(slot.value)
    {
      WrappedDifference(committed, consumed);
      if (wp - rp + M64) % M64 >= num {
        return None;
      }
      SlotOfPointer(committed, num);
      forall c: nat | consumed <= c < committed ensures SlotOf(committed, num) != SlotOf(c, num) {
        SlotsDiffer(c, committed, num);
      }
      return Some(And(wp, mask));
    }

    /** The caller fills the slot it was granted. */
    method Fill(slot: nat, p: Packet)
      requires Valid() && slot < data.Length && !Holds(slot)
      modifies data
      ensures Valid() && unread == old(unread) && data[slot] == p
      ensures forall i :: 0 <= i < data.Length && i != slot ==> data[i] == old(data[i])
    {
      data[slot] := p;
      assert forall c: nat :: consumed <= c < committed ==> SlotOf(c, num) != slot;
    }

    /** Commits the slot granted by Set. */
    method SetAdv()
      requires Valid() && |unread| < num
      modifies this
      ensures Valid() && data == old(data) && unread == old(unread) + [data[SlotOf(old(committed), num)]]
      ensures committed == old(committed) + 1
    {
      wp := (wp + 1) % M64;
      unread := unread + [data[SlotOf(committed, num)]];
      committed := committed + 1;
      NextCounter(committed - 1);
    }

    /** Producer and consumer protocols put together: a bounded FIFO queue. */
    method Enqueue(p: Packet) returns (ok: bool)
      requires Valid()
      modifies this, data
      ensures Valid() && data == old(data) && num == old(num)
      ensures ok <==> |old(unread)| < num
      ensures unread == if ok then old(unread) + [p] else old(unread)
    {
      var slot := Set();
      if slot.None? {
        return false;
      }
      Fill(slot.value, p);
      SetAdv();
      return true;
    }

    method Dequeue() returns (p: Option<Packet>)
      requires Valid()
      modifies this
      ensures Valid() && data == old(data) && num == old(num)
      ensures p.Some? <==> old(unread) != []
      ensures p.Some? ==> [p.value] + unread == old(unread)
      ensures p.None? ==> unread == old(unread)
    {
      var slot := Get();
      if slot.None? {
        return None;
      }
      p := Some(data[slot.value]);
      GetAdv();
    }
  }

  lemma SmallPow2(n: nat)
    requires n < M64 && IsPow2(n)
    ensures exists k: nat :: k <= 63 && n == Pow2(k)
    ensures n <= M64 / 2
  {
    var top := WordIsPow2();
    var k: nat :| n == Pow2(k);
    if k > top {
      Pow2Monotone(top + 1, k);
    }
    Pow2Monotone(k, top);
  }

  lemma SmallSize(num: nat, size: int)
    requires Sized(num, size) && num < M64
    ensures num <= M64 / 2 && (num == 0 || IsPow2(num))
  {
    if num != 0 {
      SmallPow2(num);
    }
  }

  lemma NextCounter(count: nat)
    ensures (count % M64 + 1) % M64 == (count + 1) % M64
  {
  }

  lemma SameCounter(w: nat, r: nat)
    requires r <= w < r + M64
    ensures w % M64 == r % M64 <==> w == r
  {
    WrappedDifference(w, r);
  }
}
