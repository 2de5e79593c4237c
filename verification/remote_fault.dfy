/** FLWindow::RemoteDSPErrorCallback: the remote DSP library reports a
    fault on a live remote instance. A read or write fault switches the
    window back to local processing, unless the previous fault was seen at
    most 3 whole seconds earlier, in which case it is coalesced with it. */
module RemoteFault {
  import opened Optional
  import opened RemoteErrors
  import opened Window

  /** Faults closer than this many whole seconds to the previous one are
      coalesced. */
  const DebounceSeconds: int := 3

  /** A switch of processing machine: the address and port migrated to,
      the caption the window's option menu shows for it, and the message
      reported to the user. */
  datatype Target = Target(ip: string, port: int, caption: string, notice: string)

  /** The fallback: back to this machine, "localhost" port 0. */
  const LocalTarget: Target :=
    Target("localhost", 0, "local processing", "Remote Connection Error.\n Switching back to local processing.")

  /** The callback's value to the remote library. */
  const CallbackResult: int := -1

  function Abs(x: int): nat {
    if x < 0 then -x else x
  }

  /** C++ integer division, truncating toward zero: the quotient's size is
      the number of whole `b`s in `a`'s size, and its sign is `a`'s. */
  function TruncDiv(a: int, b: int): (q: int)
    requires b > 0
    ensures b * Abs(q) <= Abs(a) < b * (Abs(q) + 1)
    ensures q == 0 || (q > 0 <==> a > 0)
  {
    var d := Abs(a) / b;
    DivBounds(Abs(a), b);
    var q := if a >= 0 then d else -d;
    assert Abs(q) == d;
    q
  }

  lemma DivBounds(n: nat, b: int)
    requires b > 0
    ensures b * (n / b) <= n < b * (n / b + 1)
    ensures n / b > 0 ==> n > 0
  {
    assert n == b * (n / b) + n % b;
    assert b * (n / b + 1) == b * (n / b) + b;
  }

  /** QDateTime::secsTo for times given in milliseconds: the whole seconds
      elapsed from `from` to `to`, truncated toward zero. */
  function SecsTo(from: int, to: int): (s: int)
    ensures to >= from ==> s * 1000 <= to - from < (s + 1) * 1000
    ensures to < from ==> (s - 1) * 1000 < to - from <= s * 1000
  {
    TruncDiv(to - from, 1000)
  }

  datatype FaultResult = FaultResult(window: Window, fallback: Option<Target>, result: int)

  /** One fault with code `code` observed at time `now` (milliseconds). */
  function OnRemoteError(w: Window, now: int, code: ErrorCode): (r: FaultResult)
    // the fault is always recorded and the callback always answers -1
    ensures r.window == w.(lastMigration := now)
    ensures r.result == -1
    // fallback to local processing exactly for a transport fault seen at
    // least 4 seconds (more than 3 whole seconds) after the previous one
    ensures r.fallback.Some? <==> IsTransportFault(code) && now - w.lastMigration >= 4000
    ensures r.fallback.Some? ==> r.fallback.value.ip == "localhost" && r.fallback.value.port == 0
  {
    var fallback :=
      if SecsTo(w.lastMigration, now) > DebounceSeconds && IsTransportFault(code) then Some(LocalTarget)
      else None;
    FaultResult(w.(lastMigration := now), fallback, CallbackResult)
  }

  /** Whether each fault of `faults` (time, code), fed in order to a
      window whose last fault was at `last`, made it fall back. */
  function Fallbacks(w: Window, faults: seq<(int, ErrorCode)>): (fb: seq<bool>)
    ensures |fb| == |faults|
    decreases |faults|
  {
    if |faults| == 0 then []
    else
      var r := OnRemoteError(w, faults[0].0, faults[0].1);
      [r.fallback.Some?] + Fallbacks(r.window, faults[1..])
  }

  /** The time of the fault before the i-th one: the window's record for
      the first, the previous fault's time otherwise. */
  function PreviousFault(w: Window, faults: seq<(int, ErrorCode)>, i: nat): int
    requires i < |faults|
  {
    if i == 0 then w.lastMigration else faults[i - 1].0
  }

  /** Along any stream of faults, a fault triggers a fallback exactly when
      it is a transport fault at least 4 seconds after the fault before it
      (or after the window's construction, for the first): faults in a
      burst are coalesced, faults further apart each fall back. */
  lemma {:induction false} FallbackIffSpaced(w: Window, faults: seq<(int, ErrorCode)>)
    ensures forall i :: 0 <= i < |faults| ==>
      (Fallbacks(w, faults)[i] <==>
         IsTransportFault(faults[i].1) && faults[i].0 - PreviousFault(w, faults, i) >= 4000)
    decreases |faults|
  {
    if |faults| > 0 {
      var w' := OnRemoteError(w, faults[0].0, faults[0].1).window;
      FallbackIffSpaced(w', faults[1..]);
      forall i | 0 <= i < |faults|
        ensures Fallbacks(w, faults)[i] <==>
                IsTransportFault(faults[i].1) && faults[i].0 - PreviousFault(w, faults, i) >= 4000
      {
        if i > 0 {
          assert Fallbacks(w, faults)[i] == Fallbacks(w', faults[1..])[i - 1];
          assert PreviousFault(w', faults[1..], i - 1) == PreviousFault(w, faults, i);
        }
      }
    }
  }

  /** The fault clock starts at the construction time: a transport fault
      right after a window is built does not fall back. */
  lemma FreshWindowCoalesces(e: DspCreation.Effect, created: int, now: int, code: ErrorCode)
    requires created <= now < created + 4000
    ensures OnRemoteError(NewWindow(e, created), now, code).fallback.None?
  {
  }
}
