/**
 * The sequential semantics of the queue: every public call runs under the
 * queue's single lock, so what callers observe is a sequence of atomic steps
 * on the element sequence. `Step` is one call, `Exec` a run of calls.
 */
module DequeTrace {
  import opened Optional

  /** A call that changes the contents or removes an element. */
  datatype Op<T> = Push(v: T) | Pop | Steal | Clear

  /** Contents after a run of calls, and one reply per call (`None` for push and clear). */
  datatype Run<T> = Run(contents: seq<T>, replies: seq<Option<T>>)

  /** One call: push appends at the back, pop takes the front, steal takes the back. */
  function Step<T>(s: seq<T>, op: Op<T>): (seq<T>, Option<T>)
  {
    match op
    case Push(v) => (s + [v], None)
    case Pop => if s == [] then (s, None) else (s[1..], Some(s[0]))
    case Steal => if s == [] then (s, None) else (s[..|s| - 1], Some(s[|s| - 1]))
    case Clear => ([], None)
  }

  /** Runs the calls `ops` in order, starting from contents `s`. */
  function Exec<T>(s: seq<T>, ops: seq<Op<T>>): (r: Run<T>)
    ensures |r.replies| == |ops|
    decreases |ops|
  {
    if ops == [] then Run(s, [])
    else
      var (t, reply) := Step(s, ops[0]);
      var rest := Exec(t, ops[1..]);
      Run(rest.contents, [reply] + rest.replies)
  }

  /** `n` copies of `x`. */
  function Replicate<X>(x: X, n: nat): (r: seq<X>)
    ensures |r| == n && forall i :: 0 <= i < n ==> r[i] == x
  {
    if n == 0 then [] else [x] + Replicate(x, n - 1)
  }

  /** One push per value, in order. */
  function Pushes<T>(vs: seq<T>): (ops: seq<Op<T>>)
    ensures |ops| == |vs| && forall i :: 0 <= i < |vs| ==> ops[i] == Push(vs[i])
  {
    if vs == [] then [] else [Push(vs[0])] + Pushes(vs[1..])
  }

  /** Every value wrapped as a present reply. */
  function Somes<T>(xs: seq<T>): (r: seq<Option<T>>)
    ensures |r| == |xs| && forall i :: 0 <= i < |xs| ==> r[i] == Some(xs[i])
  {
    if xs == [] then [] else [Some(xs[0])] + Somes(xs[1..])
  }

  /** The elements in the opposite order. */
  function Reverse<T>(xs: seq<T>): (r: seq<T>)
    ensures |r| == |xs| && forall i :: 0 <= i < |xs| ==> r[i] == xs[|xs| - 1 - i]
  {
    if xs == [] then [] else Reverse(xs[1..]) + [xs[0]]
  }

  /** Only pops and steals. */
  predicate RemovalsOnly<T>(ops: seq<Op<T>>)
  {
    forall i :: 0 <= i < |ops| ==> ops[i].Pop? || ops[i].Steal?
  }

  /** The values the pop calls of a run delivered, in call order. */
  function PopResults<T>(ops: seq<Op<T>>, replies: seq<Option<T>>): seq<T>
    requires |ops| == |replies|
  {
    if ops == [] then []
    else (if ops[0].Pop? && replies[0].Some? then [replies[0].value] else [])
         + PopResults(ops[1..], replies[1..])
  }

  /** The values the steal calls of a run delivered, in call order. */
  function StealResults<T>(ops: seq<Op<T>>, replies: seq<Option<T>>): seq<T>
    requires |ops| == |replies|
  {
    if ops == [] then []
    else (if ops[0].Steal? && replies[0].Some? then [replies[0].value] else [])
         + StealResults(ops[1..], replies[1..])
  }

  /** Running `a` and then `b` is running `a + b`. */
  lemma {:induction false} ExecAppend<T>(s: seq<T>, a: seq<Op<T>>, b: seq<Op<T>>)
    ensures var first := Exec(s, a);
            var second := Exec(first.contents, b);
            Exec(s, a + b) == Run(second.contents, first.replies + second.replies)
    decreases a
  {
    if a == [] {
      assert a + b == b;
    } else {
      assert (a + b)[0] == a[0];
      assert (a + b)[1..] == a[1..] + b;
      ExecAppend(Step(s, a[0]).0, a[1..], b);
    }
  }

  /** Pushes append their values at the back, in order, and reply nothing. */
  lemma {:induction false} PushesAppend<T>(s: seq<T>, vs: seq<T>)
    ensures Exec(s, Pushes(vs)) == Run(s + vs, Replicate(None, |vs|))
    decreases vs
  {
    if vs == [] {
      assert s + vs == s;
    } else {
      PushesAppend(s + [vs[0]], vs[1..]);
      assert s + [vs[0]] + vs[1..] == s + vs;
      assert [None] + Replicate<Option<T>>(None, |vs| - 1) == Replicate(None, |vs|);
    }
  }

  /** `k` pops deliver the first `k` elements, oldest first. */
  lemma {:induction false} PopsTakeFront<T>(s: seq<T>, k: nat)
    requires k <= |s|
    ensures Exec(s, Replicate(Pop, k)) == Run(s[k..], Somes(s[..k]))
  {
    if k > 0 {
      PopsTakeFront(s[1..], k - 1);
      assert Replicate<Op<T>>(Pop, k)[1..] == Replicate(Pop, k - 1);
      assert s[1..][k - 1..] == s[k..];
      assert [Some(s[0])] + Somes(s[1..][..k - 1]) == Somes(s[..k]);
    }
  }

  /**
   * FIFO: after pushing `vs` onto any contents `s`, `|s| + |vs|` pops deliver
   * `s` and then `vs` in push order, and one more pop finds the queue empty.
   */
  lemma {:induction false} Fifo<T>(s: seq<T>, vs: seq<T>)
    ensures Exec(s, Pushes(vs) + Replicate(Pop, |s| + |vs|) + [Pop])
         == Run([], Replicate(None, |vs|) + Somes(s + vs) + [None])
  {
    var n := |s| + |vs|;
    ExecAppend(s, Pushes(vs), Replicate(Pop, n));
    PushesAppend(s, vs);
    PopsTakeFront(s + vs, n);
    assert (s + vs)[n..] == [];
    assert (s + vs)[..n] == s + vs;
    ExecAppend(s, Pushes(vs) + Replicate(Pop, n), [Pop]);
  }

  /** `k` steals deliver the last `k` elements, newest first. */
  lemma {:induction false} StealsTakeBack<T>(s: seq<T>, k: nat)
    requires k <= |s|
    ensures Exec(s, Replicate(Steal, k)) == Run(s[..|s| - k], Somes(Reverse(s[|s| - k..])))
  {
    if k > 0 {
      var t := s[..|s| - 1];
      StealsTakeBack(t, k - 1);
      assert Replicate<Op<T>>(Steal, k)[1..] == Replicate(Steal, k - 1);
      assert t[..|t| - (k - 1)] == s[..|s| - k];
      assert [s[|s| - 1]] + Reverse(t[|t| - (k - 1)..]) == Reverse(s[|s| - k..]);
      assert [Some(s[|s| - 1])] + Somes(Reverse(t[|t| - (k - 1)..])) == Somes(Reverse(s[|s| - k..]));
    }
  }

  /**
   * LIFO: from an empty queue, pushing `vs` and then stealing `|vs|` times
   * delivers `vs` newest first, and one more steal finds the queue empty.
   */
  lemma {:induction false} Lifo<T>(vs: seq<T>)
    ensures Exec([], Pushes(vs) + Replicate(Steal, |vs|) + [Steal])
         == Run([], Replicate(None, |vs|) + Somes(Reverse(vs)) + [None])
  {
    ExecAppend([], Pushes(vs), Replicate(Steal, |vs|));
    PushesAppend([], vs);
    assert [] + vs == vs;
    StealsTakeBack(vs, |vs|);
    assert vs[|vs| - |vs|..] == vs;
    ExecAppend([], Pushes(vs) + Replicate(Steal, |vs|), [Steal]);
  }

  /**
   * Exactly-once delivery: under any interleaving of pops and steals, the
   * popped values are a prefix of the original contents (in order), the
   * stolen values are the matching suffix (newest first), and what remains
   * lies between them.
   */
  lemma {:induction false} ExactlyOnce<T>(s: seq<T>, ops: seq<Op<T>>)
    requires RemovalsOnly(ops)
    ensures var r := Exec(s, ops);
            s == PopResults(ops, r.replies) + r.contents + Reverse(StealResults(ops, r.replies))
    decreases ops
  {
    if ops != [] {
      var (t, reply) := Step(s, ops[0]);
      var rest := Exec(t, ops[1..]);
      RemovalsOnlyTail(ops);
      ExactlyOnce(t, ops[1..]);
      ExecCons(s, ops);
      assert [ops[0]] + ops[1..] == ops;
      PartitionStep(s, ops[0], ops[1..], rest.replies, rest.contents);
    }
  }

  /** The induction step of `ExactlyOnce`: one more pop or steal in front keeps the partition. */
  lemma PartitionStep<T>(s: seq<T>, op: Op<T>, ops: seq<Op<T>>, replies: seq<Option<T>>, rest: seq<T>)
    requires (op.Pop? || op.Steal?) && |ops| == |replies|
    requires Step(s, op).0 == PopResults(ops, replies) + rest + Reverse(StealResults(ops, replies))
    ensures var all, answers := [op] + ops, [Step(s, op).1] + replies;
            s == PopResults(all, answers) + rest + Reverse(StealResults(all, answers))
  {
    var reply := Step(s, op).1;
    var all, answers := [op] + ops, [reply] + replies;
    var p, q := PopResults(ops, replies), StealResults(ops, replies);
    ResultsCons(all, reply, replies);
    assert all[0] == op && all[1..] == ops;
    if s == [] {
      assert reply == None;
      assert PopResults(all, answers) == p && StealResults(all, answers) == q;
    } else if op.Pop? {
      assert reply == Some(s[0]);
      assert PopResults(all, answers) == [s[0]] + p && StealResults(all, answers) == q;
      PartitionPop(s, p, rest, Reverse(q));
    } else {
      assert reply == Some(s[|s| - 1]);
      assert PopResults(all, answers) == p && StealResults(all, answers) == [s[|s| - 1]] + q;
      PartitionSteal(s, p, rest, q);
    }
  }

  /** A pop puts the old front ahead of the popped prefix. */
  lemma PartitionPop<T>(s: seq<T>, p: seq<T>, rest: seq<T>, back: seq<T>)
    requires s != [] && s[1..] == p + rest + back
    ensures s == [s[0]] + p + rest + back
  {
  }

  /** A steal puts the old back at the head of the stolen values. */
  lemma PartitionSteal<T>(s: seq<T>, p: seq<T>, rest: seq<T>, q: seq<T>)
    requires s != [] && s[..|s| - 1] == p + rest + Reverse(q)
    ensures s == p + rest + Reverse([s[|s| - 1]] + q)
  {
  }

  /** `Exec` unfolded once. */
  lemma ExecCons<T>(s: seq<T>, ops: seq<Op<T>>)
    requires ops != []
    ensures var rest := Exec(Step(s, ops[0]).0, ops[1..]);
            Exec(s, ops) == Run(rest.contents, [Step(s, ops[0]).1] + rest.replies)
  {
  }

  /** `PopResults` and `StealResults` unfolded once. */
  lemma ResultsCons<T>(ops: seq<Op<T>>, reply: Option<T>, replies: seq<Option<T>>)
    requires ops != [] && |ops| == |replies| + 1
    ensures PopResults(ops, [reply] + replies)
         == (if ops[0].Pop? && reply.Some? then [reply.value] else []) + PopResults(ops[1..], replies)
    ensures StealResults(ops, [reply] + replies)
         == (if ops[0].Steal? && reply.Some? then [reply.value] else []) + StealResults(ops[1..], replies)
  {
  }

  /** No element is lost: each pop or steal on a non-empty queue delivers one. */
  lemma {:induction false} NoneLost<T>(s: seq<T>, ops: seq<Op<T>>)
    requires RemovalsOnly(ops)
    ensures var r := Exec(s, ops);
            |PopResults(ops, r.replies)| + |StealResults(ops, r.replies)|
            == if |ops| <= |s| then |ops| else |s|
    decreases ops
  {
    if ops != [] {
      var t := Step(s, ops[0]).0;
      RemovalsOnlyTail(ops);
      NoneLost(t, ops[1..]);
      var r, rest := Exec(s, ops), Exec(t, ops[1..]);
      assert r.replies[1..] == rest.replies;
    }
  }

  /** Dropping the first call of a pops-and-steals run leaves one. */
  lemma RemovalsOnlyTail<T>(ops: seq<Op<T>>)
    requires ops != [] && RemovalsOnly(ops)
    ensures RemovalsOnly(ops[1..])
  {
  }

  /** Reversing keeps every element, as many times as it occurs. */
  lemma {:induction false} ReverseMultiset<T>(xs: seq<T>)
    ensures multiset(Reverse(xs)) == multiset(xs)
  {
    if xs != [] {
      ReverseMultiset(xs[1..]);
      assert xs == [xs[0]] + xs[1..];
    }
  }

  /**
   * Exactly-once delivery from a fresh queue: after pushing `vs`, any
   * interleaving of pops and steals hands out each pushed value once, pops
   * from the front and steals from the back, and no value is lost.
   */
  lemma ExactlyOnceAfterPushes<T>(vs: seq<T>, ops: seq<Op<T>>)
    requires RemovalsOnly(ops)
    ensures var r := Exec([], Pushes(vs) + ops);
            var tail := r.replies[|vs|..];
            |tail| == |ops| &&
            vs == PopResults(ops, tail) + r.contents + Reverse(StealResults(ops, tail)) &&
            multiset(vs) == multiset(PopResults(ops, tail)) + multiset(StealResults(ops, tail)) + multiset(r.contents) &&
            |PopResults(ops, tail)| + |StealResults(ops, tail)| == if |ops| <= |vs| then |ops| else |vs|
  {
    var r := Exec([], Pushes(vs) + ops);
    AfterPushes(vs, ops);
    var tail := r.replies[|vs|..];
    ExactlyOnce(vs, ops);
    NoneLost(vs, ops);
    PartitionMultiset(vs, PopResults(ops, tail), r.contents, StealResults(ops, tail));
  }

  /** After pushing `vs` onto an empty queue, further calls run as they would from `vs`. */
  lemma AfterPushes<T>(vs: seq<T>, ops: seq<Op<T>>)
    ensures var r, after := Exec([], Pushes(vs) + ops), Exec(vs, ops);
            |r.replies| == |vs| + |ops| && r.contents == after.contents && r.replies[|vs|..] == after.replies
  {
    ExecAppend([], Pushes(vs), ops);
    PushesAppend([], vs);
    assert [] + vs == vs;
  }

  /** A front/remaining/back partition accounts for every element exactly once. */
  lemma PartitionMultiset<T>(s: seq<T>, p: seq<T>, rest: seq<T>, q: seq<T>)
    requires s == p + rest + Reverse(q)
    ensures multiset(s) == multiset(p) + multiset(q) + multiset(rest)
  {
    ReverseMultiset(q);
  }

  /** Clear empties any contents, and clearing again changes nothing. */
  lemma ClearIdempotent<T>(s: seq<T>)
    ensures Step(s, Clear).0 == []
    ensures Step(Step(s, Clear).0, Clear) == Step(s, Clear)
  {
  }
}
