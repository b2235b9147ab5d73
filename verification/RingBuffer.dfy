/** The rolling buffer of metric snapshots, for any capacity above zero; an entry may be missing. */
module RingBuffer {
  import opened Common

  datatype Snapshot = Snapshot(timestamp: int, reading: int)
  type Entry = Option<Snapshot>

  function Min(a: int, b: int): int {
    if a < b then a else b
  }

  /** The last `n` entries of a log, or all of it. */
  function Tail<T>(log: seq<T>, n: nat): seq<T> {
    log[|log| - Min(|log|, n)..]
  }

  function After(t: int): Entry -> bool {
    (e: Entry) => e.Some? && e.value.timestamp > t
  }

  lemma WrapAround(i: int, n: int)
    requires n > 0 && 0 <= i < 2 * n
    ensures i % n == if i < n then i else i - n
  {
    if i >= n {
      assert i == (i - n) + n * 1;
    }
  }

  class Buffer {
    var data: array<Entry>
    var head: int
    var count: int
    /** Everything ever pushed, oldest first. */
    ghost var log: seq<Entry>

    ghost predicate Valid()
      reads this, data
    {
      && data.Length > 0 && 0 <= head < data.Length && count == Min(|log|, data.Length)
      && forall i :: 0 <= i < count ==> data[Slot(i)] == log[|log| - count + i]
    }

    /** Where the `i`-th oldest stored entry lies. */
    function Slot(i: int): (slot: int)
      requires data.Length > 0 && 0 <= head < data.Length && 0 <= i < count <= data.Length
      reads this
      ensures 0 <= slot < data.Length
    {
      var position := head - count + i;
      if position < 0 then position + data.Length else position
    }

    constructor (capacity: nat)
      requires capacity > 0
      ensures Valid() && log == [] && data.Length == capacity && fresh(data)
    {
      data := new Entry[capacity](_ => None);
      head, count, log := 0, 0, [];
    }

    method Push(s: Entry)
      requires Valid()
      modifies this, data
      ensures Valid() && data == old(data) && log == old(log) + [s]
    {
      ghost var h, c := head, count;
      data[head] := s;
      WrapAround(head + 1, data.Length);
      head := (head + 1) % data.Length;
      if count < data.Length {
        count := count + 1;
      }
      log := log + [s];
      forall i | 0 <= i < count ensures data[Slot(i)] == log[|log| - count + i] {
        var j := i + c + 1 - count;
        if i < count - 1 {
          assert Slot(i) == old(Slot(j)) != h;
        } else {
          assert Slot(i) == h;
        }
      }
    }

    method Latest() returns (s: Entry)
      requires Valid()
      ensures s == if log == [] then None else log[|log| - 1]
    {
      if count == 0 {
        return None;
      }
      WrapAround(head - 1 + data.Length, data.Length);
      var index := (head - 1 + data.Length) % data.Length;
      assert index == Slot(count - 1);
      return data[index];
    }

    method History() returns (result: seq<Entry>)
      requires Valid()
      ensures result == Tail(log, data.Length)
    {
      result := [];
      if count == 0 {
        return;
      }
      WrapAround(head - count + data.Length, data.Length);
      var start := (head - count + data.Length) % data.Length;
      for i := 0 to count
        invariant |result| == i
        invariant forall k :: 0 <= k < i ==> result[k] == log[|log| - count + k]
      {
        WrapAround(start + i, data.Length);
        assert (start + i) % data.Length == Slot(i);
        result := result + [data[(start + i) % data.Length]];
      }
    }

    method Since(t: int) returns (result: seq<Entry>)
      requires Valid()
      ensures result == Filter(Tail(log, data.Length), After(t))
    {
      var all := History();
      result := [];
      for i := 0 to |all|
        invariant result == Filter(all[..i], After(t))
      {
        assert all[..i + 1] == all[..i] + [all[i]];
        FilterSnoc(all[..i], all[i], After(t));
        if all[i].Some? && all[i].value.timestamp > t {
          result := result + [all[i]];
        }
      }
      assert all[..|all|] == all;
    }
  }

  /** No entry is missing, and timestamps never run backwards. */
  ghost predicate Chronological(log: seq<Entry>) {
    && (forall i :: 0 <= i < |log| ==> log[i].Some?)
    && (forall i, j :: 0 <= i < j < |log| ==> log[i].value.timestamp <= log[j].value.timestamp)
  }

  lemma {:induction false} FilterNone(log: seq<Entry>, p: Entry -> bool)
    requires forall i :: 0 <= i < |log| ==> !p(log[i])
    ensures Filter(log, p) == []
  {
    if log != [] {
      FilterNone(log[..|log| - 1], p);
    }
  }

  ghost predicate CutAt(log: seq<Entry>, t: int, k: int) {
    && 0 <= k <= |log| && Filter(log, After(t)) == log[k..]
    && (forall i :: 0 <= i < |log| ==> (i >= k <==> After(t)(log[i])))
  }

  /** On a chronological log, "since" cuts the history once: everything from some point on. */
  lemma {:induction false} SinceIsSuffix(log: seq<Entry>, t: int)
    requires Chronological(log)
    ensures exists k :: CutAt(log, t, k)
  {
    if log == [] || !After(t)(log[|log| - 1]) {
      FilterNone(log, After(t));
      assert CutAt(log, t, |log|);
    } else {
      var init, last := log[..|log| - 1], log[|log| - 1];
      SinceIsSuffix(init, t);
      var k :| CutAt(init, t, k);
      assert log[k..] == init[k..] + [last];
      assert forall i :: 0 <= i < |init| ==> log[i] == init[i];
      assert CutAt(log, t, k);
    }
  }

  /** Only strictly later entries are kept. */
  lemma SinceIsLater(log: seq<Entry>, t: int, e: Entry)
    ensures e in Filter(log, After(t)) <==> e in log && e.Some? && e.value.timestamp > t
  {
    if e in log && After(t)(e) {
      FilterHas(log, e, After(t));
    }
  }

  /** The history is the end of the log: at most so many entries, and all of them if there are no more. */
  lemma TailIsTheEnd<T>(log: seq<T>, n: nat)
    ensures exists older: seq<T> :: older + Tail(log, n) == log
    ensures |Tail(log, n)| == if |log| <= n then |log| else n
  {
    assert log[..|log| - Min(|log|, n)] + Tail(log, n) == log;
  }
}
