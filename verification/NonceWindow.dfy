// The bounded store of consumed claim nonces: a window of the newest nonces and a
// watermark standing for all the older ones.
module NonceWindow {
  import opened Options

  datatype NonceError = AlreadyConsumed(nonce: nat) | BelowWatermark(watermark: nat, got: nat)

  datatype Window = Window(capacity: nat, watermark: Option<nat>, retained: seq<nat>)

  function Empty(capacity: nat): Window {
    Window(capacity, None, [])
  }

  // ---- The window as a value --------------------------------------------------------------

  predicate Ascending(s: seq<nat>) {
    forall i, j | 0 <= i < j < |s| :: s[i] < s[j]
  }

  /** Where `binary_search` finds `n` or would insert it in an ascending vector. */
  function SearchPosition(s: seq<nat>, n: nat): (p: nat)
    ensures p <= |s|
    ensures forall i | 0 <= i < p :: s[i] < n
    ensures p < |s| ==> n <= s[p]
  {
    if s == [] || n <= s[0] then 0 else 1 + SearchPosition(s[1..], n)
  }

  predicate Found(s: seq<nat>, n: nat) {
    var p := SearchPosition(s, n);
    p < |s| && s[p] == n
  }

  predicate IsBelow(w: Window, n: nat) {
    w.watermark.Some? && n <= w.watermark.value
  }

  predicate IsConsumed(w: Window, n: nat) {
    IsBelow(w, n) || Found(w.retained, n)
  }

  function Raise(watermark: Option<nat>, n: nat): Option<nat> {
    if watermark.Some? && watermark.value > n then watermark else Some(n)
  }

  function Compacted(w: Window): Window
    decreases |w.retained|
  {
    if w.capacity == 0 then
      if w.retained == [] then w
      else Window(0, Raise(w.watermark, w.retained[|w.retained| - 1]), [])
    else if |w.retained| > w.capacity then
      Compacted(Window(w.capacity, Raise(w.watermark, w.retained[0]), w.retained[1..]))
    else w
  }

  function Inserted(s: seq<nat>, n: nat): seq<nat> {
    var p := SearchPosition(s, n);
    s[..p] + [n] + s[p..]
  }

  function Consumed(w: Window, n: nat): (Window, Option<NonceError>) {
    if IsBelow(w, n) then (w, Some(BelowWatermark(w.watermark.value, n)))
    else if Found(w.retained, n) then (w, Some(AlreadyConsumed(n)))
    else (Compacted(w.(retained := Inserted(w.retained, n))), None)
  }

  // ---- The object ---------------------------------------------------------------------------

  class NonceWindow {
    const capacity: nat
    var watermark: Option<nat>
    var retained: seq<nat>

    function Value(): Window
      reads this
    {
      Window(capacity, watermark, retained)
    }

    constructor (capacity: nat)
      ensures Value() == Empty(capacity)
    {
      this.capacity := capacity;
      watermark := None;
      retained := [];
    }

    method Contains(nonce: nat) returns (consumed: bool)
      ensures consumed <==> IsConsumed(Value(), nonce)
    {
      if watermark.Some? {
        if nonce <= watermark.value {
          return true;
        }
      }
      return Found(retained, nonce);
    }

    method Consume(nonce: nat) returns (error: Option<NonceError>)
      modifies this
      ensures (Value(), error) == Consumed(old(Value()), nonce)
    {
      if watermark.Some? {
        if nonce <= watermark.value {
          return Some(BelowWatermark(watermark.value, nonce));
        }
      }
      if Found(retained, nonce) {
        return Some(AlreadyConsumed(nonce));
      }
      var pos := SearchPosition(retained, nonce);
      retained := retained[..pos] + [nonce] + retained[pos..];
      Compact();
      return None;
    }

    method Compact()
      modifies this
      ensures Value() == Compacted(old(Value()))
    {
      if capacity == 0 {
        if retained != [] {
          var last := retained[|retained| - 1];
          watermark := Some(if watermark.Some? && watermark.value > last then watermark.value else last);
          retained := [];
        }
        return;
      }
      while |retained| > capacity
        invariant Compacted(Value()) == Compacted(old(Value()))
        decreases |retained|
      {
        var evicted := retained[0];
        retained := retained[1..];
        watermark := Some(if watermark.Some? && watermark.value > evicted then watermark.value else evicted);
      }
    }
  }

  // ---- The set of accepted nonces decides the window -------------------------------------------

  ghost function Max(a: set<nat>): (m: nat)
    requires a != {}
    ensures m in a && forall x | x in a :: x <= m
    decreases |a|
  {
    var x :| x in a;
    if a == {x} then x
    else
      assert a - {x} != {};
      var y := Max(a - {x});
      assert forall z | z in a :: z == x || z in a - {x};
      if x > y then x else y
  }

  /** The elements of a set in ascending order. */
  ghost function Sorted(a: set<nat>): (s: seq<nat>)
    ensures Ascending(s) && |s| == |a| && forall x :: x in s <==> x in a
    decreases |a|
  {
    if a == {} then [] else Sorted(a - {Max(a)}) + [Max(a)]
  }

  lemma LastIsGreatest(s: seq<nat>, a: nat)
    requires Ascending(s + [a])
    ensures Ascending(s) && forall x | x in s :: x < a
  {
    var whole := s + [a];
    assert forall i | 0 <= i < |s| :: s[i] == whole[i];
    assert whole[|s|] == a;
  }

  /** Histories with the same members end in the same one, and agree without it. */
  lemma SameLast(s: seq<nat>, a: nat, t: seq<nat>, b: nat)
    requires Ascending(s + [a]) && Ascending(t + [b]) && forall x :: x in s + [a] <==> x in t + [b]
    ensures a == b && forall x :: x in s <==> x in t
  {
    LastIsGreatest(s, a);
    LastIsGreatest(t, b);
    assert a in s + [a] && b in t + [b];
    forall x
      ensures x in s <==> x in t
    {
      assert x in s + [a] <==> x in t + [b];
    }
  }

  lemma {:induction false} AscendingUnique(s: seq<nat>, t: seq<nat>)
    requires Ascending(s) && Ascending(t) && forall x :: x in s <==> x in t
    ensures s == t
    decreases |s|
  {
    assert t != [] ==> t[0] in s;
    if s != [] {
      assert s[0] in t;
      var s', t' := s[..|s| - 1], t[..|t| - 1];
      assert s == s' + [s[|s| - 1]] && t == t' + [t[|t| - 1]];
      SameLast(s', s[|s| - 1], t', t[|t| - 1]);
      AscendingUnique(s', t');
    }
  }

  lemma InsertedAscends(s: seq<nat>, n: nat)
    requires Ascending(s) && n !in s
    ensures Ascending(Inserted(s, n)) && forall x :: x in Inserted(s, n) <==> x in s || x == n
  {
    var p := SearchPosition(s, n);
    assert forall x :: x in s <==> x in s[..p] || x in s[p..];
  }

  lemma SortedInsert(a: set<nat>, n: nat)
    requires n !in a
    ensures Sorted(a + {n}) == Inserted(Sorted(a), n)
  {
    InsertedAscends(Sorted(a), n);
    AscendingUnique(Sorted(a + {n}), Inserted(Sorted(a), n));
  }

  function Min(x: nat, y: nat): nat {
    if x <= y then x else y
  }

  /** The window of an ascending history: its newest nonces, and the newest of the others. */
  function WindowOfHistory(capacity: nat, s: seq<nat>): Window {
    var dropped := |s| - Min(capacity, |s|);
    Window(capacity, if dropped == 0 then None else Some(s[dropped - 1]), s[dropped..])
  }

  /** The window of an accepted set. */
  ghost function WindowOf(capacity: nat, accepted: set<nat>): Window {
    WindowOfHistory(capacity, Sorted(accepted))
  }

  lemma FoundIffMember(s: seq<nat>, n: nat)
    requires Ascending(s)
    ensures Found(s, n) <==> n in s
  {
  }

  lemma TailHolds(s: seq<nat>, dropped: nat, n: nat)
    requires Ascending(s) && dropped <= |s|
    ensures Ascending(s[dropped..])
    ensures dropped > 0 && s[dropped - 1] < n ==> forall i | 0 <= i < dropped :: s[i] < n
    ensures (dropped > 0 ==> s[dropped - 1] < n) ==> (n in s <==> n in s[dropped..])
  {
    assert s == s[..dropped] + s[dropped..];
    assert forall i | 0 <= i < dropped :: s[i] <= s[dropped - 1];
  }

  lemma ConsumedOfHistory(capacity: nat, s: seq<nat>, n: nat)
    requires Ascending(s)
    ensures var w := WindowOfHistory(capacity, s);
            && (IsConsumed(w, n) <==> n in s || IsBelow(w, n))
            && (n in s ==> IsConsumed(w, n))
            && (!IsConsumed(w, n) ==> forall i | 0 <= i < |s| - |w.retained| :: s[i] < n)
  {
    var w := WindowOfHistory(capacity, s);
    TailHolds(s, |s| - |w.retained|, n);
    FoundIffMember(w.retained, n);
  }

  /** A nonce counts as consumed exactly when it was accepted or lies at or below the watermark. */
  lemma ConsumedOfSet(capacity: nat, accepted: set<nat>, n: nat)
    ensures var w := WindowOf(capacity, accepted);
            && (IsConsumed(w, n) <==> n in accepted || IsBelow(w, n))
            && (n in accepted ==> IsConsumed(w, n))
            && |w.retained| <= capacity
  {
    ConsumedOfHistory(capacity, Sorted(accepted), n);
  }

  lemma {:induction false} SearchSkips(p: seq<nat>, r: seq<nat>, n: nat)
    requires forall i | 0 <= i < |p| :: p[i] < n
    ensures SearchPosition(p + r, n) == |p| + SearchPosition(r, n)
    decreases |p|
  {
    if p == [] {
      assert p + r == r;
    } else {
      assert (p + r)[1..] == p[1..] + r;
      SearchSkips(p[1..], r, n);
    }
  }

  lemma InsertSkips(p: seq<nat>, r: seq<nat>, n: nat)
    requires forall i | 0 <= i < |p| :: p[i] < n
    ensures Inserted(p + r, n) == p + Inserted(r, n)
  {
    SearchSkips(p, r, n);
  }

  function Last(p: seq<nat>): Option<nat> {
    if p == [] then None else Some(p[|p| - 1])
  }

  /** A history split into what the window forgot and what it keeps. */
  lemma SplitWindow(capacity: nat, older: seq<nat>, newer: seq<nat>)
    requires |newer| == Min(capacity, |older| + |newer|)
    ensures WindowOfHistory(capacity, older + newer) == Window(capacity, Last(older), newer)
  {
    assert (older + newer)[|older|..] == newer;
  }

  /** A window with one nonce too many moves its oldest one below the watermark. */
  lemma CompactOne(capacity: nat, older: seq<nat>, newer: seq<nat>)
    requires Ascending(older + newer) && |newer| == capacity + 1
    ensures Compacted(Window(capacity, Last(older), newer)) == Window(capacity, Some(newer[0]), newer[1..])
  {
    var grown := Window(capacity, Last(older), newer);
    if older != [] {
      assert (older + newer)[|older| - 1] == older[|older| - 1] && (older + newer)[|older|] == newer[0];
    }
    assert Raise(Last(older), newer[0]) == Some(newer[0]);
    var evicted := Window(capacity, Some(newer[0]), newer[1..]);
    if capacity == 0 {
      assert newer[|newer| - 1] == newer[0] && newer[1..] == [];
    } else {
      assert Compacted(grown) == Compacted(evicted) == evicted;
    }
  }

  /** A history whose kept part has grown by one, compacted. */
  lemma CompactGrown(capacity: nat, older: seq<nat>, grown: seq<nat>)
    requires Ascending(older + grown) && 1 <= |grown| <= capacity + 1 && (|grown| <= capacity ==> older == [])
    ensures Compacted(Window(capacity, Last(older), grown)) == WindowOfHistory(capacity, older + grown)
  {
    if |grown| <= capacity {
      SplitWindow(capacity, older, grown);
    } else {
      CompactOne(capacity, older, grown);
      assert older + [grown[0]] + grown[1..] == older + grown;
      SplitWindow(capacity, older + [grown[0]], grown[1..]);
    }
  }

  lemma AcceptSplit(capacity: nat, older: seq<nat>, newer: seq<nat>, n: nat)
    requires Ascending(older + newer) && |newer| == Min(capacity, |older| + |newer|)
    requires n !in older + newer && forall i | 0 <= i < |older| :: older[i] < n
    ensures Compacted(Window(capacity, Last(older), Inserted(newer, n)))
         == WindowOfHistory(capacity, Inserted(older + newer, n))
  {
    InsertSkips(older, newer, n);
    InsertedAscends(older + newer, n);
    CompactGrown(capacity, older, Inserted(newer, n));
  }

  lemma AcceptExtendsHistory(capacity: nat, s: seq<nat>, n: nat)
    requires Ascending(s) && !IsConsumed(WindowOfHistory(capacity, s), n)
    ensures n !in s
    ensures Consumed(WindowOfHistory(capacity, s), n) == (WindowOfHistory(capacity, Inserted(s, n)), None)
  {
    var w := WindowOfHistory(capacity, s);
    var dropped := |s| - |w.retained|;
    ConsumedOfHistory(capacity, s, n);
    assert s[..dropped] + s[dropped..] == s;
    AcceptSplit(capacity, s[..dropped], s[dropped..], n);
    SplitWindow(capacity, s[..dropped], s[dropped..]);
  }

  /** Accepting a nonce turns the window of a set into the window of the larger set. */
  lemma AcceptExtends(capacity: nat, accepted: set<nat>, n: nat)
    requires !IsConsumed(WindowOf(capacity, accepted), n)
    ensures n !in accepted
    ensures Consumed(WindowOf(capacity, accepted), n) == (WindowOf(capacity, accepted + {n}), None)
  {
    AcceptExtendsHistory(capacity, Sorted(accepted), n);
    SortedInsert(accepted, n);
  }

  lemma CompactIsIdle(capacity: nat, accepted: set<nat>)
    ensures Compacted(WindowOf(capacity, accepted)) == WindowOf(capacity, accepted)
  {
    assert |WindowOf(capacity, accepted).retained| <= capacity;
  }

  // ---- Runs ------------------------------------------------------------------------------------

  datatype Op = Consume(nonce: nat) | Compact

  function Step(w: Window, op: Op): Window {
    match op
    case Consume(n) => Consumed(w, n).0
    case Compact => Compacted(w)
  }

  function Run(w: Window, ops: seq<Op>): Window
    decreases |ops|
  {
    if ops == [] then w else Step(Run(w, ops[..|ops| - 1]), ops[|ops| - 1])
  }

  /** The nonces a run accepts. */
  function Accepted(w: Window, ops: seq<Op>): set<nat>
    decreases |ops|
  {
    if ops == [] then {}
    else
      var earlier, last := ops[..|ops| - 1], ops[|ops| - 1];
      Accepted(w, earlier) + AcceptedBy(Run(w, earlier), last)
  }

  /** After any run the window is the one of the accepted set, whatever the order of the calls. */
  lemma {:induction false} RunIsWindowOfAccepted(capacity: nat, ops: seq<Op>)
    ensures Run(Empty(capacity), ops) == WindowOf(capacity, Accepted(Empty(capacity), ops))
    decreases |ops|
  {
    if ops != [] {
      var earlier, last := ops[..|ops| - 1], ops[|ops| - 1];
      RunIsWindowOfAccepted(capacity, earlier);
      StepOnSet(capacity, Accepted(Empty(capacity), earlier), last);
    }
  }

  function AcceptedBy(w: Window, op: Op): set<nat> {
    if op.Consume? && Consumed(w, op.nonce).1 == None then {op.nonce} else {}
  }

  lemma StepOnSet(capacity: nat, accepted: set<nat>, op: Op)
    ensures var w := WindowOf(capacity, accepted);
            Step(w, op) == WindowOf(capacity, accepted + AcceptedBy(w, op))
  {
    var w := WindowOf(capacity, accepted);
    if op.Compact? {
      CompactIsIdle(capacity, accepted);
      assert accepted + AcceptedBy(w, op) == accepted;
    } else if IsConsumed(w, op.nonce) {
      assert accepted + AcceptedBy(w, op) == accepted;
    } else {
      AcceptExtends(capacity, accepted, op.nonce);
    }
  }

  lemma {:induction false} AcceptedGrows(w: Window, ops: seq<Op>, k: nat)
    requires k <= |ops|
    ensures Accepted(w, ops[..k]) <= Accepted(w, ops)
    decreases |ops|
  {
    if k < |ops| {
      AcceptedGrows(w, ops[..|ops| - 1], k);
      assert ops[..|ops| - 1][..k] == ops[..k];
    } else {
      assert ops[..k] == ops;
    }
  }

  /** An accepted nonce stays consumed for the rest of every run, so it is never accepted again. */
  lemma NeverAcceptedTwice(capacity: nat, ops: seq<Op>, k: nat, n: nat)
    requires k <= |ops| && n in Accepted(Empty(capacity), ops[..k])
    ensures IsConsumed(Run(Empty(capacity), ops), n)
    ensures Consumed(Run(Empty(capacity), ops), n).1.Some?
  {
    AcceptedGrows(Empty(capacity), ops, k);
    RunIsWindowOfAccepted(capacity, ops);
    ConsumedOfSet(capacity, Accepted(Empty(capacity), ops), n);
  }

  /** A fresh nonce above the watermark is accepted, and which error any other one gets. */
  lemma Verdict(capacity: nat, ops: seq<Op>, n: nat)
    ensures var w := Run(Empty(capacity), ops);
            var accepted := Accepted(Empty(capacity), ops);
            Consumed(w, n).1 ==
              if w.watermark.Some? && n <= w.watermark.value then Some(BelowWatermark(w.watermark.value, n))
              else if n in accepted then Some(AlreadyConsumed(n))
              else None
  {
    RunIsWindowOfAccepted(capacity, ops);
    ConsumedOfSet(capacity, Accepted(Empty(capacity), ops), n);
  }

  ghost predicate HoldsNewest(w: Window, accepted: set<nat>) {
    && Ascending(w.retained)
    && |w.retained| == Min(w.capacity, |accepted|)
    && (forall x | x in w.retained :: x in accepted)
    && (forall x, y | x in accepted && x !in w.retained && y in w.retained :: x < y)
    && (w.watermark.None? <==> forall x | x in accepted :: x in w.retained)
    && (w.watermark.Some? ==>
          && w.watermark.value in accepted && w.watermark.value !in w.retained
          && forall x | x in accepted && x !in w.retained :: x <= w.watermark.value)
  }

  lemma HistorySplit(s: seq<nat>, dropped: nat, x: nat)
    requires Ascending(s) && dropped <= |s|
    ensures x in s <==> x in s[..dropped] || x in s[dropped..]
    ensures x in s[..dropped] ==> x !in s[dropped..] && x <= s[dropped - 1]
    ensures x in s[..dropped] ==> forall y | y in s[dropped..] :: x < y
  {
    if x in s {
      var i :| 0 <= i < |s| && s[i] == x;
      assert if i < dropped then s[..dropped][i] == x else s[dropped..][i - dropped] == x;
    }
  }

  lemma HistoryHoldsNewest(w: Window, s: seq<nat>, accepted: set<nat>)
    requires Ascending(s) && (forall x :: x in s <==> x in accepted) && |s| == |accepted|
    requires w == WindowOfHistory(w.capacity, s)
    ensures HoldsNewest(w, accepted)
  {
    var dropped := |s| - |w.retained|;
    var older, newer := s[..dropped], s[dropped..];
    forall x
      ensures x in accepted <==> x in older || x in newer
      ensures x in older ==> x !in newer && x <= s[dropped - 1] && forall y | y in newer :: x < y
    {
      HistorySplit(s, dropped, x);
    }
    if dropped > 0 {
      assert older[dropped - 1] == s[dropped - 1] && s[dropped - 1] in older;
    }
  }

  /** What a run leaves, said without sorting. */
  lemma RunHoldsNewest(capacity: nat, ops: seq<Op>)
    ensures HoldsNewest(Run(Empty(capacity), ops), Accepted(Empty(capacity), ops))
  {
    var accepted := Accepted(Empty(capacity), ops);
    RunIsWindowOfAccepted(capacity, ops);
    HistoryHoldsNewest(WindowOf(capacity, accepted), Sorted(accepted), accepted);
  }

  /** Runs that accept the same nonces end in the same state, in whatever order they came. */
  lemma OrderIsForgotten(capacity: nat, p: seq<Op>, q: seq<Op>)
    requires Accepted(Empty(capacity), p) == Accepted(Empty(capacity), q)
    ensures Run(Empty(capacity), p) == Run(Empty(capacity), q)
  {
    RunIsWindowOfAccepted(capacity, p);
    RunIsWindowOfAccepted(capacity, q);
  }
}
