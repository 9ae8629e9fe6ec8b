/**
 The timer wheel of a Comet server (pkg/time/timer.go): a binary min-heap of records that know their
 own position, a free list of records, and one armed wake-up shared by a single waiting goroutine.
 */
module Timer {
  import opened Common

  class TimerData {
    var expire: int
    var fn: Option<nat>
    var index: int
    var next: TimerData?

    constructor ()
      ensures next == null && fn == None
    {
      expire, fn, index, next := 0, None, 0, null;
    }
  }

  function Parent(c: int): int
    requires c >= 1
  {
    (c - 1) / 2
  }

  // ---------------------------------------------------------------- heap order on positions

  /** Position c is not below its parent. */
  ghost predicate Ordered(ks: seq<int>, c: int)
    requires 1 <= c < |ks|
  {
    ks[Parent(c)] <= ks[c]
  }

  ghost predicate Heap(ks: seq<int>) {
    forall c :: 1 <= c < |ks| ==> Ordered(ks, c)
  }

  /** A heap except perhaps between position j and its parent. */
  ghost predicate HeapBut(ks: seq<int>, j: int) {
    && (forall c :: 1 <= c < |ks| && c != j ==> Ordered(ks, c))
    && (forall c :: 1 <= c < |ks| && Parent(c) == j && j >= 1 ==> ks[Parent(j)] <= ks[c])
  }

  /** Sinking from j has reached i: only the children of i may be below it, and j may be below its parent. */
  ghost predicate Sinking(ks: seq<int>, j: int, i: int)
    requires 0 <= j <= i < |ks|
  {
    && (forall c :: 1 <= c < |ks| && c != j && Parent(c) != i ==> Ordered(ks, c))
    && (1 <= j < i ==> Ordered(ks, j))
    && (forall c :: 1 <= c < |ks| && Parent(c) == i && i >= 1 ==> ks[Parent(i)] <= ks[c])
  }

  function Swapped<T>(s: seq<T>, i: int, j: int): (r: seq<T>)
    requires 0 <= i < |s| && 0 <= j < |s|
    ensures |r| == |s|
  {
    s[i := s[j]][j := s[i]]
  }

  lemma {:induction false} RootIsLeast(ks: seq<int>, i: int)
    requires 0 <= i < |ks| && Heap(ks)
    ensures ks[0] <= ks[i]
    decreases i
  {
    if i == 0 {
    } else {
      RootIsLeast(ks, Parent(i));
      assert Ordered(ks, i);
    }
  }

  lemma RisingStep(ks: seq<int>, j: int)
    requires 1 <= j < |ks| && HeapBut(ks, j) && ks[j] < ks[Parent(j)]
    ensures HeapBut(Swapped(ks, Parent(j), j), Parent(j))
  {
    var p := Parent(j);
    var r := Swapped(ks, p, j);
    forall c | 1 <= c < |ks| && c != p ensures Ordered(r, c) {
      assert c != j ==> Ordered(ks, c);
    }
    forall c | 1 <= c < |ks| && Parent(c) == p && p >= 1 ensures r[Parent(p)] <= r[c] {
      assert Ordered(ks, p);
      assert c != j ==> Ordered(ks, c);
    }
  }

  lemma SinkingStep(ks: seq<int>, j: int, i: int, c: int)
    requires 0 <= j <= i < |ks| && 1 <= c < |ks| && Parent(c) == i
    requires Sinking(ks, j, i) && ks[c] < ks[i]
    requires forall d :: 1 <= d < |ks| && Parent(d) == i ==> ks[c] <= ks[d]
    ensures Sinking(Swapped(ks, i, c), j, c)
  {
    var r := Swapped(ks, i, c);
    forall d | 1 <= d < |ks| && d != j && Parent(d) != c ensures Ordered(r, d) {
      assert Parent(d) != i ==> Ordered(ks, d);
    }
    forall d | 1 <= d < |ks| && Parent(d) == c ensures r[Parent(c)] <= r[d] {
      assert Ordered(ks, d);
    }
  }

  lemma SunkIsHeapBut(ks: seq<int>, j: int, i: int)
    requires 0 <= j <= i < |ks| && Sinking(ks, j, i)
    requires forall d :: 1 <= d < |ks| && Parent(d) == i ==> ks[i] <= ks[d]
    ensures HeapBut(ks, j)
  {
    forall c | 1 <= c < |ks| && c != j ensures Ordered(ks, c) {
      assert Parent(c) != i ==> Ordered(ks, c);
    }
  }

  class Timer {
    var free: TimerData?
    var timers: seq<TimerData>
    ghost var keys: seq<int>         // expiry times by position: what the heap order is about
    const num: nat
    var signal: Option<int>          // when the wake-up is due; None is the infinite duration
    var waiting: bool                // the loop is blocked on the signal
    ghost var freeList: seq<TimerData>
    ghost var live: set<TimerData>   // records in the heap
    ghost var handed: set<TimerData> // records in clients' hands: in the heap, or expired and not deleted

    /** The records from `free` along `next` are exactly freeList. */
    ghost predicate FreeLinked()
      reads this`free, this`freeList, freeList`next
    {
      && (free == if freeList == [] then null else freeList[0])
      && (forall i {:trigger freeList[i]} :: 0 <= i < |freeList| ==>
            freeList[i].next == if i + 1 < |freeList| then freeList[i + 1] else null)
      && (forall i, j :: 0 <= i < j < |freeList| ==> freeList[i] != freeList[j])
    }

    /** Every record in the array knows its position, `keys` repeats its expiry, and `live` is all of them. */
    ghost predicate Indexed()
      reads this`timers, this`keys, this`live, timers`index, timers`expire, live`index
    {
      && |keys| == |timers|
      && (forall i {:trigger timers[i]} :: 0 <= i < |timers| ==>
            timers[i].index == i && timers[i].expire == keys[i] && timers[i] in live)
      && (forall t :: t in live ==> 0 <= t.index < |timers| && timers[t.index] == t)
    }

    ghost predicate Valid()
      reads this, timers, live, freeList, handed
    {
      && num >= 1
      && Indexed() && Heap(keys)
      && live <= handed
      // records that expired and wait for their owner's Del or Set know that they are out of the heap
      && (forall t :: t in handed && t !in live ==> t.index == -1)
      && FreeLinked() && (forall t :: t in freeList ==> t !in handed)
      // while the loop waits, its wake-up is due no later than the earliest timer
      && (waiting && keys != [] ==> signal.Some? && signal.value <= keys[0])
    }

    constructor (num: nat)
      requires num >= 1
      ensures Valid() && timers == [] && handed == {} && !waiting && fresh(freeList) && |freeList| == num
    {
      free, timers, keys, live, signal, waiting, freeList, handed := null, [], [], {}, None, false, [], {};
      this.num := num;
      new;
      Grow();
    }

    /** A chain of num fresh records. */
    method Grow()
      requires num >= 1 && freeList == []
      modifies this`free, this`freeList
      ensures FreeLinked() && |freeList| == num && fresh(freeList)
    {
      var td := new TimerData();
      free := td;
      freeList := [td];
      var i := 1;
      while i < num
        invariant 1 <= i <= num && |freeList| == i && fresh(freeList)
        invariant FreeLinked() && td == freeList[i - 1]
      {
        var fresher := new TimerData();
        td.next := fresher;
        freeList := freeList + [fresher];
        td := td.next;
        i := i + 1;
      }
    }

    method Swap(i: int, j: int)
      requires 0 <= i < |timers| && 0 <= j < |timers| && Indexed()
      modifies this`timers, this`keys, live`index
      ensures timers == Swapped(old(timers), i, j) && keys == Swapped(old(keys), i, j)
      ensures Indexed()
    {
      timers := timers[i := timers[j]][j := timers[i]];
      keys := keys[i := keys[j]][j := keys[i]];
      timers[i].index := i;
      timers[j].index := j;
    }

    /** Lets position `at` rise within the first n positions. */
    method Up(at: int, ghost n: int)
      requires 0 <= at < n <= |timers| && Indexed() && HeapBut(keys[..n], at)
      modifies this`timers, this`keys, live`index
      ensures |timers| == |old(timers)| && timers[n..] == old(timers)[n..]
      ensures Indexed()
      ensures Heap(keys[..n])
    {
      var j := at;
      while true
        invariant 0 <= j < n <= |timers| == |old(timers)| && timers[n..] == old(timers)[n..]
        invariant Indexed()
        invariant HeapBut(keys[..n], j)
        decreases j
      {
        // Go's division truncates: the parent of 0 is 0
        var i := if j == 0 then 0 else (j - 1) / 2;
        if i >= j || timers[j].expire >= timers[i].expire {
          break;
        }
        ghost var ks := keys;
        RisingStep(ks[..n], j);
        Swap(i, j);
        assert keys[..n] == Swapped(ks[..n], i, j);
        j := i;
      }
      assert j >= 1 ==> Ordered(keys[..n], j);
    }

    method LesserChild(i: int, n: int) returns (j: int)
      requires 0 <= i && 2 * i + 1 < n <= |timers| && Indexed()
      ensures i < j < n && Parent(j) == i
      ensures forall d :: 1 <= d < n && Parent(d) == i ==> keys[..n][j] <= keys[..n][d]
    {
      j := 2 * i + 1;
      if j + 1 < n && timers[j].expire >= timers[j + 1].expire {
        j := j + 1;
      }
    }

    /** Lets position `from` sink within the first n positions. */
    method Down(from: int, n: int)
      requires 0 <= from < n <= |timers| && Indexed() && Sinking(keys[..n], from, from)
      modifies this`timers, this`keys, live`index
      ensures |timers| == |old(timers)| && timers[n..] == old(timers)[n..]
      ensures Indexed()
      ensures HeapBut(keys[..n], from)
    {
      var i := from;
      while true
        invariant from <= i < n <= |timers| == |old(timers)| && timers[n..] == old(timers)[n..]
        invariant Indexed()
        invariant Sinking(keys[..n], from, i)
        decreases n - i
      {
        ghost var ks := keys;
        if 2 * i + 1 >= n {
          SunkIsHeapBut(ks[..n], from, i);
          break;
        }
        var j := LesserChild(i, n);
        if timers[j].expire >= timers[i].expire {
          SunkIsHeapBut(ks[..n], from, i);
          break;
        }
        SinkingStep(ks[..n], from, i, j);
        Swap(i, j);
        assert keys[..n] == Swapped(ks[..n], i, j);
        i := j;
      }
    }

    // -------------------------------------------------------------- the heap part: add and del

    /** Puts a record that is in nobody's heap into the heap; a new root re-arms the signal. */
    method Push(td: TimerData)
      requires td !in live && Indexed() && Heap(keys)
      modifies this`timers, this`keys, this`live, this`signal, td`index, live`index
      ensures Indexed() && Heap(keys) && timers != []
      ensures live == old(live) + {td}
      ensures if timers[0] == td then signal == Some(keys[0])
              else signal == old(signal) && old(keys) != [] && old(keys)[0] <= keys[0]
    {
      AppendHeapBut(keys, td.expire);
      RootsLeast();
      td.index := |timers|;
      timers := timers + [td];
      live := live + {td};
      keys := keys + [td.expire];
      assert timers[..|timers| - 1] == old(timers);
      assert keys[..|timers|] == keys;
      Up(td.index, |timers|);
      assert keys[..|timers|] == keys;
      if td.index == 0 {
        signal := Some(td.expire);
      } else {
        assert timers[0] in live;
      }
    }

    /** Takes a record out of the heap if it is there; what is left starts no earlier. */
    method Remove(td: TimerData)
      requires Indexed() && Heap(keys)
      requires td !in live ==> td.index == -1
      modifies this`timers, this`keys, this`live, td`index, live`index
      ensures Indexed() && Heap(keys)
      ensures live == old(live) - {td}
      ensures td.index == -1
      ensures keys != [] ==> old(keys) != [] && old(keys)[0] <= keys[0]
    {
      var i := td.index;
      var last := |timers| - 1;
      if i < 0 || i > last || timers[i] != td {
        return;
      }
      RootsLeast();
      if i != last {
        MoveToEnd(i, last);
      } else {
        PrefixHeap(keys, last);
      }
      timers[last].index := -1;
      live := live - {timers[last]};
      timers := timers[..last];
      keys := keys[..last];
      assert timers != [] ==> timers[0] in live;
    }

    // -------------------------------------------------------------- the sections run under the lock

    method Get() returns (td: TimerData)
      requires num >= 1 && FreeLinked()
      modifies this`free, this`freeList
      ensures FreeLinked()
      ensures if old(freeList) == [] then fresh(td) && fresh(freeList) else [td] + freeList == old(freeList)
      ensures td !in freeList
    {
      if free == null {
        Grow();
      }
      td := free;
      free := td.next;
      freeList := freeList[1..];
    }

    method PutBack(td: TimerData)
      requires FreeLinked() && td !in freeList
      modifies this`free, this`freeList, td`fn, td`next
      ensures FreeLinked() && freeList == [td] + old(freeList)
    {
      td.fn := None;
      td.next := free;
      free := td;
      freeList := [td] + freeList;
    }

    method Add(now: int, delay: int, fn: Option<nat>) returns (td: TimerData)
      requires Valid()
      modifies this, live`index, freeList`expire, freeList`fn, freeList`index
      ensures Valid() && waiting == old(waiting)
      ensures td !in old(handed) && handed == old(handed) + {td}
      ensures live == old(live) + {td}
      ensures td.expire == now + delay && td.fn == fn
      ensures forall t :: t in old(handed) ==> t.expire == old(t.expire) && t.fn == old(t.fn)
    {
      td := HandOut(now + delay, fn);
      Push(td);
    }

    /** A free record, filled in, becomes the client's handle. */
    method HandOut(due: int, fn: Option<nat>) returns (td: TimerData)
      requires Valid()
      modifies this`free, this`freeList, this`handed, freeList`expire, freeList`fn
      ensures td !in old(handed) && handed == old(handed) + {td}
      ensures FreeLinked() && (forall t :: t in freeList ==> t !in handed)
      ensures Indexed() && td !in live && (forall t :: t in handed && t != td && t !in live ==> t.index == -1)
      ensures (td in old(freeList) || fresh(td)) && td.expire == due && td.fn == fn
      ensures forall t :: t in old(handed) ==> t.expire == old(t.expire) && t.fn == old(t.fn)
    {
      td := Get();
      td.expire := due;
      td.fn := fn;
      handed := handed + {td};
    }

    /** Each handle is deleted once; whether it has expired meanwhile does not matter. */
    method Del(td: TimerData)
      requires Valid() && td in handed
      modifies this, td, live`index
      ensures Valid() && waiting == old(waiting)
      ensures handed == old(handed) - {td}
      ensures live == old(live) - {td}
      ensures freeList == [td] + old(freeList)
      ensures forall t :: t in handed ==> t.expire == old(t.expire)
    {
      Remove(td);
      handed := handed - {td};
      PutBack(td);
    }

    /** Re-arms a handle, also one that has already expired. */
    method Set(td: TimerData, now: int, delay: int)
      requires Valid() && td in handed
      modifies this, td, live`index
      ensures Valid() && waiting == old(waiting)
      ensures handed == old(handed) && freeList == old(freeList)
      ensures live == old(live) + {td}
      ensures td.expire == now + delay && td.fn == old(td.fn)
      ensures forall t :: t in handed && t != td ==> t.expire == old(t.expire)
    {
      Remove(td);
      td.expire := now + delay;
      Push(td);
    }

    /** One round of the loop in expire: the next due timer, or None after re-arming the signal. */
    method ExpireStep(now: int) returns (due: TimerData?)
      requires Valid() && !waiting
      modifies this, live`index
      ensures Valid() && handed == old(handed) && freeList == old(freeList)
      ensures due == null ==>
                && waiting && timers == old(timers) && live == old(live)
                && (forall t :: t in live ==> now < t.expire)
                && signal == if timers == [] then None else Some(timers[0].expire)
      ensures due != null ==>
                && !waiting && due in old(live) && due.expire <= now
                && live == old(live) - {due}
                && (forall t :: t in live ==> due.expire <= t.expire)
    {
      if timers == [] {
        signal := None;
        waiting := true;
        return null;
      }
      due := timers[0];
      RootsLeast();
      if due.expire - now > 0 {
        signal := Some(due.expire);
        waiting := true;
        return null;
      }
      Remove(due);
    }

    /**
     expire under a frozen clock, with callbacks that leave the timer alone: runs exactly the timers due
     at or before now, each once, in non-decreasing expiry order, and goes to wait.
     */
    method Expire(now: int) returns (fired: seq<TimerData>)
      requires Valid() && !waiting
      modifies this, live`index
      ensures Valid() && waiting && handed == old(handed) && freeList == old(freeList)
      ensures forall t :: t in fired <==> t in old(live) && t.expire <= now
      ensures forall t :: t in live <==> t in old(live) && t.expire > now
      ensures forall i, j :: 0 <= i < j < |fired| ==> fired[i] != fired[j] && fired[i].expire <= fired[j].expire
    {
      hide Valid, Indexed, Heap;
      fired := [];
      ghost var all := live;
      var due := ExpireStep(now);
      while due != null
        invariant Valid() && handed == old(handed) && freeList == old(freeList) && live <= all
        invariant forall t :: t in all ==> t.expire == old(t.expire)
        invariant due == null <==> waiting
        invariant Progress(all, live, fired, due, now)
        decreases !waiting, |live|
      {
        var next := FireNext(now, all, fired, due);
        fired := fired + [due];
        due := next;
      }
    }

    method FireNext(now: int, ghost all: set<TimerData>, ghost fired: seq<TimerData>, ghost due: TimerData)
      returns (next: TimerData?)
      requires Valid() && !waiting && Progress(all, live, fired, due, now)
      modifies this, live`index
      ensures Valid() && handed == old(handed) && freeList == old(freeList) && live <= old(live)
      ensures next == null <==> waiting
      ensures next != null ==> live == old(live) - {next} && next in old(live)
      ensures Progress(all, live, fired + [due], next, now)
    {
      hide Valid, Indexed, Heap;
      next := ExpireStep(now);
    }

    /** The loop of Expire: what has fired, in order, and what is still in the heap. */
    ghost predicate Progress(all: set<TimerData>, rest: set<TimerData>, fired: seq<TimerData>,
                             due: TimerData?, now: int)
      reads all`expire, rest`expire, fired`expire, if due == null then {} else {due}
    {
      && rest <= all && (forall t :: t in all ==> t in rest || t in fired || t == due)
      && (forall t :: t in fired ==> t in all && t !in rest && t != due && t.expire <= now)
      && (forall i, j :: 0 <= i < j < |fired| ==> fired[i] != fired[j] && fired[i].expire <= fired[j].expire)
      && (if due != null then
            due in all && due !in rest && due.expire <= now
            && (forall t :: t in fired ==> t.expire <= due.expire)
            && (forall t :: t in rest ==> due.expire <= t.expire)
          else forall t :: t in rest ==> now < t.expire)
    }

    /** The signal fires, or an old tick is still in the channel: the loop goes on to expire. */
    method Wake()
      requires Valid() && waiting
      modifies this`waiting
      ensures Valid() && !waiting
    {
      waiting := false;
    }

    /** In every state the operations can reach: a waiting loop has a wake-up due by the time any timer is. */
    lemma NoMissedWakeup(td: TimerData, now: int)
      requires Valid() && waiting && td in live && td.expire <= now
      ensures signal.Some? && signal.value <= now
    {
      RootsLeast();
    }

    lemma RootsLeast()
      requires Indexed() && Heap(keys)
      ensures forall t :: t in live ==> keys[0] <= t.expire
    {
      forall i | 0 <= i < |keys| ensures keys[0] <= keys[i] {
        RootIsLeast(keys, i);
      }
    }

    /** swap, down and up of the source's del. */
    method MoveToEnd(i: int, last: int)
      requires 0 <= i < last == |timers| - 1 && Indexed() && Heap(keys)
      modifies this`timers, this`keys, live`index
      ensures |timers| == |old(timers)| && timers[last] == old(timers)[i]
      ensures Indexed()
      ensures Heap(keys[..last])
    {
      ghost var td := timers[i];
      SwapOut(keys, i, last);
      Swap(i, last);
      assert timers[last..] == [td];
      Down(i, last);
      Up(i, last);
      assert timers[last] == timers[last..][0];
    }
  }

  lemma PrefixHeap(ks: seq<int>, n: nat)
    requires Heap(ks) && n <= |ks|
    ensures Heap(ks[..n])
  {
    forall c | 1 <= c < n ensures Ordered(ks[..n], c) {
      assert Ordered(ks, c);
    }
  }

  lemma AppendHeapBut(ks: seq<int>, x: int)
    requires Heap(ks)
    ensures HeapBut(ks + [x], |ks|)
  {
    forall c | 1 <= c < |ks| ensures Ordered(ks + [x], c) {
      assert Ordered(ks, c);
    }
  }

  /** Moving the last element into position i leaves a heap that only position i can disturb. */
  lemma SwapOut(ks: seq<int>, i: int, last: int)
    requires 0 <= i < last == |ks| - 1 && Heap(ks)
    ensures Sinking(Swapped(ks, i, last)[..last], i, i)
  {
    var r := Swapped(ks, i, last)[..last];
    forall c | 1 <= c < last && c != i && Parent(c) != i ensures Ordered(r, c) {
      assert Ordered(ks, c);
    }
    forall c | 1 <= c < last && Parent(c) == i && i >= 1 ensures r[Parent(i)] <= r[c] {
      assert Ordered(ks, c) && Ordered(ks, i);
    }
  }
}
