/** The queue of refused connections that `_Server` holds open until their linger is over.
    Entries are `(socket, deadline)` pairs, appended by `_refuse` and dropped by its eviction loop
    and by `_reap`. Times are integer ticks of the monotonic clock, one tick a microsecond. */
module RefusedQueue {
  import opened Prelude

  const REFUSE_LINGER: int := 1_000_000
  const REFUSE_MAX: nat := 16

  /** An accepted socket. `peer` is the uid SO_PEERCRED reports, None when it cannot be read. */
  datatype Conn = Conn(id: nat, peer: Option<nat>)

  datatype Entry = Entry(conn: Conn, deadline: int)

  ghost predicate Sorted(q: seq<Entry>) {
    forall i, j :: 0 <= i < j < |q| ==> q[i].deadline <= q[j].deadline
  }

  predicate Holds(q: seq<Entry>, c: Conn) {
    exists i :: 0 <= i < |q| && q[i].conn == c
  }

  ghost function Conns(q: seq<Entry>): seq<Conn> {
    Map((e: Entry) => e.conn, q)
  }

  /** The entries that `_reap` keeps when its clock reads `t`, in order. */
  function Unexpired(q: seq<Entry>, t: int): seq<Entry> {
    if q == [] then [] else (if t < q[0].deadline then [q[0]] else []) + Unexpired(q[1..], t)
  }

  /** How many entries of a sorted queue `_reap` drops: the length of its expired prefix. */
  ghost function ExpiredCount(q: seq<Entry>, t: int): (n: nat)
    ensures n <= |q|
  {
    if q == [] || t < q[0].deadline then 0 else 1 + ExpiredCount(q[1..], t)
  }

  lemma {:induction false} ExpiredIsPrefix(q: seq<Entry>, t: int)
    requires Sorted(q)
    ensures forall i :: 0 <= i < |q| ==> (i < ExpiredCount(q, t) <==> q[i].deadline <= t)
    ensures Unexpired(q, t) == q[ExpiredCount(q, t)..]
  {
    if q != [] {
      ExpiredIsPrefix(q[1..], t);
      forall i | 0 <= i < |q|
        ensures i < ExpiredCount(q, t) <==> q[i].deadline <= t
      {
        assert i > 0 ==> q[1..][i - 1] == q[i];
      }
      if t < q[0].deadline {
        assert ExpiredCount(q[1..], t) == 0 by {
          assert |q| > 1 ==> q[1..][0].deadline > t;
        }
      }
    }
  }

  // ---------------------------------------------------------------------------------------------
  // The shared timeout

  /** `_serve_timeout`: None is a wait without end. */
  function ServeTimeout(q: seq<Entry>, idleTimeout: Option<int>, now: int): Option<int> {
    if q == [] then idleTimeout
    else
      var linger := Max(0, q[0].deadline - now);
      if idleTimeout.None? then Some(linger) else Some(Min(idleTimeout.value, linger))
  }

  /** One of the limits a wait is subject to: the idle timeout, or what is left of some linger. */
  ghost predicate IsLimit(q: seq<Entry>, idleTimeout: Option<int>, now: int, v: int) {
    || idleTimeout == Some(v)
    || exists i :: 0 <= i < |q| && v == Max(0, q[i].deadline - now)
  }

  /** Looking at the head alone gives the least of all limits, over every held entry. */
  lemma {:induction false} ServeTimeoutIsLeastLimit(q: seq<Entry>, idleTimeout: Option<int>, now: int)
    requires Sorted(q)
    ensures var r := ServeTimeout(q, idleTimeout, now);
            && (r.None? <==> forall v :: !IsLimit(q, idleTimeout, now, v))
            && (r.Some? ==> IsLimit(q, idleTimeout, now, r.value)
                            && forall v :: IsLimit(q, idleTimeout, now, v) ==> r.value <= v)
  {
    if q == [] {
      if idleTimeout.Some? {
        assert IsLimit(q, idleTimeout, now, idleTimeout.value);
      }
    } else {
      var linger := Max(0, q[0].deadline - now);
      assert IsLimit(q, idleTimeout, now, linger);
    }
  }

  // ---------------------------------------------------------------------------------------------
  // What the queue holds, in terms of the history of refusals

  /** An entry no reap has yet seen expired. */
  ghost predicate Live(e: Entry, lastReap: Option<int>) {
    lastReap.None? || lastReap.value < e.deadline
  }

  /** The queue is the end of the refusal history, and holds an entry exactly when it is live and
      among the last `cap` refusals. */
  ghost predicate HeldExactly(q: seq<Entry>, past: seq<Entry>, lastReap: Option<int>, cap: nat) {
    && |q| <= |past|
    && q == past[|past| - |q|..]
    && forall k :: 0 <= k < |past| ==>
                     (|past| - |q| <= k <==> Live(past[k], lastReap) && |past| <= k + cap)
  }

  lemma HeldAfterAppend(q: seq<Entry>, past: seq<Entry>, lastReap: Option<int>, e: Entry,
                        q': seq<Entry>, past': seq<Entry>)
    requires HeldExactly(q, past, lastReap, REFUSE_MAX)
    requires Live(e, lastReap) && q' == q + [e] && past' == past + [e]
    ensures HeldExactly(q', past', lastReap, REFUSE_MAX + 1)
  {
    assert q' == past'[|past'| - |q'|..];
    forall k | 0 <= k < |past'|
      ensures |past'| - |q'| <= k <==> Live(past'[k], lastReap) && |past'| <= k + REFUSE_MAX + 1
    {
      if k < |past| {
        assert past'[k] == past[k];
      } else {
        assert past'[k] == e;
      }
    }
  }

  lemma HeldAfterEviction(q: seq<Entry>, past: seq<Entry>, lastReap: Option<int>)
    requires HeldExactly(q, past, lastReap, REFUSE_MAX + 1)
    ensures |q| <= REFUSE_MAX + 1
    ensures |q| <= REFUSE_MAX ==> HeldExactly(q, past, lastReap, REFUSE_MAX)
    ensures |q| > REFUSE_MAX ==> HeldExactly(q[1..], past, lastReap, REFUSE_MAX)
  {
    assert |q| > 0 ==> Live(past[|past| - |q|], lastReap);
  }

  lemma {:induction false} HeldAfterReap(q: seq<Entry>, past: seq<Entry>, lastReap: Option<int>, t: int)
    requires Sorted(past)
    requires HeldExactly(q, past, lastReap, REFUSE_MAX)
    requires lastReap.Some? ==> lastReap.value <= t
    ensures HeldExactly(Unexpired(q, t), past, Some(t), REFUSE_MAX)
  {
    ExpiredIsPrefix(q, t);
    var d := ExpiredCount(q, t);
    forall k | 0 <= k < |past|
      ensures |past| - (|q| - d) <= k <==> Live(past[k], Some(t)) && |past| <= k + REFUSE_MAX
    {
      if |past| - |q| <= k {
        assert past[k] == q[k - (|past| - |q|)];
      }
    }
  }

  /** The last `n` elements, or all of them when there are fewer. */
  ghost function LastN<T>(s: seq<T>, n: nat): seq<T> {
    if |s| <= n then s else s[|s| - n..]
  }

  /** The refusals no reap has yet seen expired. */
  ghost function Surviving(past: seq<Entry>, lastReap: Option<int>): seq<Entry> {
    if lastReap.None? then past else Unexpired(past, lastReap.value)
  }

  /** How many entries are held, when those from index `d` on are the live ones. */
  lemma HeldLength(q: seq<Entry>, past: seq<Entry>, lastReap: Option<int>, cap: nat, d: nat)
    requires HeldExactly(q, past, lastReap, cap) && d <= |past|
    requires forall k :: 0 <= k < |past| ==> (d <= k <==> Live(past[k], lastReap))
    ensures |q| == Min(|past| - d, cap)
  {
    var k := |past| - |q|;
    if k > 0 {
      assert d <= k - 1 <==> Live(past[k - 1], lastReap);
    }
    if |q| > 0 {
      assert d <= k <==> Live(past[k], lastReap);
    }
  }

  lemma SurvivingIsSuffix(past: seq<Entry>, lastReap: Option<int>) returns (d: nat)
    requires Sorted(past)
    ensures d <= |past| && Surviving(past, lastReap) == past[d..]
    ensures forall k :: 0 <= k < |past| ==> (d <= k <==> Live(past[k], lastReap))
  {
    d := 0;
    if lastReap.Some? {
      ExpiredIsPrefix(past, lastReap.value);
      d := ExpiredCount(past, lastReap.value);
    }
  }

  lemma HeldIsLastSurviving(q: seq<Entry>, past: seq<Entry>, lastReap: Option<int>, cap: nat)
    requires Sorted(past)
    requires HeldExactly(q, past, lastReap, cap)
    ensures q == LastN(Surviving(past, lastReap), cap)
  {
    var d := SurvivingIsSuffix(past, lastReap);
    HeldLength(q, past, lastReap, cap, d);
    assert past[|past| - |q|..] == past[d..][|past| - d - |q|..];
  }
}
