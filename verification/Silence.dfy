/** When the DATA consumer may be detached, said on the history of a session, and a monitor
    that decides it. */
module Silence {
  datatype Mode = Off | Bridge

  datatype Mark =
    | Attach
    | Detach
    | Config(mode: Mode, acked: bool)          // what the module was asked, and its answer
    | Look(seen: bool, queued: nat, inUse: nat) // host quiet and the module answered
    | Quiesce

  // ---- the rule, on what happened since the attach ----

  predicate IsBridge(m: Mark) {
    m.Config? && m.mode == Bridge
  }

  predicate NeverBridged(s: seq<Mark>) {
    forall m <- s :: !IsBridge(m)
  }

  predicate IsQuiet(m: Mark) {
    m == Look(true, 0, 0)
  }

  /** The module acknowledged silence after the last bridge request, and a later look saw
      both ends quiet. */
  predicate ProvedQuiet(s: seq<Mark>) {
    exists j :: 0 <= j < |s| && AckedAt(s, j) && QuietIn(s[j..])
  }

  predicate AckedAt(s: seq<Mark>, j: nat)
    requires j < |s|
  {
    s[j] == Config(Off, true) && NeverBridged(s[j..])
  }

  predicate QuietIn(s: seq<Mark>) {
    exists m <- s :: IsQuiet(m)
  }

  predicate MayDetach(s: seq<Mark>) {
    NeverBridged(s) || ProvedQuiet(s) || Quiesce in s
  }

  /** Every detach that ends an attachment obeys the rule. */
  ghost predicate DetachesSafely(tr: seq<Mark>) {
    forall a, d :: Session(tr, a, d) ==> MayDetach(tr[a + 1..d])
  }

  predicate Session(tr: seq<Mark>, a: int, d: int) {
    && 0 <= a < d < |tr| && tr[a] == Attach && tr[d] == Detach
    && Attach !in tr[a + 1..d] && Detach !in tr[a + 1..d]
  }

  // ---- the monitor ----

  datatype Monitor = Monitor(attached: bool, bridged: bool, off: bool, quiet: bool, taken: bool)

  const IDLE := Monitor(false, false, false, false, false)

  function Watch(w: Monitor, m: Mark): Monitor {
    match m
    case Attach => Monitor(true, false, false, false, false)
    case Detach => w.(attached := false)
    case Config(Bridge, _) => w.(bridged := true, off := false, quiet := false)
    case Config(Off, acked) => w.(off := w.off || acked)
    case Look(_, _, _) => w.(quiet := w.quiet || (w.off && IsQuiet(m)))
    case Quiesce => w.(taken := true)
  }

  function WatchAll(w: Monitor, tr: seq<Mark>): Monitor {
    if tr == [] then w else Watch(WatchAll(w, tr[..|tr| - 1]), tr[|tr| - 1])
  }

  predicate Clear(w: Monitor) {
    !w.bridged || w.quiet || w.taken
  }

  lemma {:induction false} WatchSplits(w: Monitor, a: seq<Mark>, b: seq<Mark>)
    ensures WatchAll(w, a + b) == WatchAll(WatchAll(w, a), b)
    decreases |b|
  {
    if b == [] {
      assert a + b == a;
    } else {
      var n := |b| - 1;
      WatchSplits(w, a, b[..n]);
      assert (a + b)[..|a + b| - 1] == a + b[..n];
    }
  }

  predicate AckedSince(s: seq<Mark>) {
    exists j :: 0 <= j < |s| && AckedAt(s, j)
  }

  /** The monitor remembers exactly what the rule asks for. */
  lemma {:induction false} MonitorIsExact(w: Monitor, s: seq<Mark>)
    requires Attach !in s && !w.bridged && !w.off && !w.quiet && !w.taken
    ensures var v := WatchAll(w, s);
      && (v.bridged <==> !NeverBridged(s))
      && (v.off <==> AckedSince(s))
      && (v.quiet <==> ProvedQuiet(s))
      && (v.taken <==> Quiesce in s)
    decreases |s|
  {
    if s != [] {
      MonitorIsExact(w, s[..|s| - 1]);
      NeverSnoc(s[..|s| - 1], s[|s| - 1]);
      AckedSnoc(s[..|s| - 1], s[|s| - 1]);
      ProvedSnoc(s[..|s| - 1], s[|s| - 1]);
      assert s[..|s| - 1] + [s[|s| - 1]] == s;
    }
  }

  lemma NeverSnoc(s: seq<Mark>, m: Mark)
    ensures NeverBridged(s + [m]) <==> NeverBridged(s) && !IsBridge(m)
    ensures Quiesce in s + [m] <==> Quiesce in s || m == Quiesce
    ensures QuietIn(s + [m]) <==> QuietIn(s) || IsQuiet(m)
  {
  }

  lemma AckedAtSnoc(s: seq<Mark>, m: Mark, j: nat)
    requires j <= |s|
    ensures j < |s| ==> (AckedAt(s + [m], j) <==> AckedAt(s, j) && !IsBridge(m))
    ensures j == |s| ==> (AckedAt(s + [m], j) <==> m == Config(Off, true))
    ensures QuietIn((s + [m])[j..]) <==> QuietIn(s[j..]) || IsQuiet(m)
  {
    assert (s + [m])[j..] == s[j..] + [m];
    NeverSnoc(s[j..], m);
  }

  lemma AckedSnoc(s: seq<Mark>, m: Mark)
    ensures AckedSince(s + [m]) <==> m == Config(Off, true) || (AckedSince(s) && !IsBridge(m))
  {
    hide AckedAt, NeverBridged, QuietIn;
    forall j | 0 <= j <= |s|
      ensures j < |s| ==> (AckedAt(s + [m], j) <==> AckedAt(s, j) && !IsBridge(m))
      ensures j == |s| ==> (AckedAt(s + [m], j) <==> m == Config(Off, true))
    {
      AckedAtSnoc(s, m, j);
    }
    assert m == Config(Off, true) ==> AckedAt(s + [m], |s|);
    if j :| 0 <= j < |s| && AckedAt(s, j) { assert !IsBridge(m) ==> AckedAt(s + [m], j); }
  }

  lemma ProvedSnoc(s: seq<Mark>, m: Mark)
    ensures ProvedQuiet(s + [m]) <==>
      !IsBridge(m) && (ProvedQuiet(s) || (AckedSince(s) && IsQuiet(m)))
  {
    hide AckedAt, NeverBridged, QuietIn;
    if j :| 0 <= j < |s + [m]| && AckedAt(s + [m], j) && QuietIn((s + [m])[j..]) {
      AckedAtSnoc(s, m, j);
      LoneAck(s, m, j);
    }
    if j :| 0 <= j < |s| && AckedAt(s, j) && QuietIn(s[j..]) { AckedAtSnoc(s, m, j); }
    if j :| 0 <= j < |s| && AckedAt(s, j) { AckedAtSnoc(s, m, j); }
  }

  lemma LoneAck(s: seq<Mark>, m: Mark, j: nat)
    requires j <= |s| && AckedAt(s + [m], j) && QuietIn((s + [m])[j..])
    ensures j < |s|
  {
    LastOne(s, m);
  }

  lemma LastOne(s: seq<Mark>, m: Mark)
    ensures (s + [m])[|s|..] == [m]
  {
  }

  // ---- using the monitor ----

  /** A history may go on with `m` if `m` is not a detach the monitor objects to. */
  predicate Permits(w: Monitor, m: Mark) {
    m == Detach ==> !w.attached || Clear(w)
  }

  lemma SnocIsSafe(tr: seq<Mark>, m: Mark)
    requires DetachesSafely(tr) && Permits(WatchAll(IDLE, tr), m)
    ensures DetachesSafely(tr + [m])
    ensures WatchAll(IDLE, tr + [m]) == Watch(WatchAll(IDLE, tr), m)
  {
    var all := tr + [m];
    assert all[..|tr|] == tr;
    forall a, d | Session(all, a, d) ensures MayDetach(all[a + 1..d]) {
      assert all[a + 1..d] == tr[a + 1..d];
      if d < |tr| {
        assert Session(tr, a, d);
      } else {
        EndOfSession(tr, a);
      }
    }
  }

  lemma EndOfSession(tr: seq<Mark>, a: nat)
    requires a < |tr| && tr[a] == Attach && Attach !in tr[a + 1..] && Detach !in tr[a + 1..]
    ensures WatchAll(IDLE, tr).attached
    ensures Clear(WatchAll(IDLE, tr)) <==> MayDetach(tr[a + 1..])
  {
    var head, s := tr[..a + 1], tr[a + 1..];
    assert tr == head + s && head[..a] == tr[..a];
    WatchSplits(IDLE, head, s);
    var w := WatchAll(IDLE, head);
    MonitorIsExact(w, s);
    StaysAttached(w, s);
  }

  lemma {:induction false} StaysAttached(w: Monitor, s: seq<Mark>)
    requires w.attached && Detach !in s
    ensures WatchAll(w, s).attached
    decreases |s|
  {
    if s != [] {
      assert Detach !in s[..|s| - 1];
      StaysAttached(w, s[..|s| - 1]);
    }
  }
}
