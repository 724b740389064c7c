/** The flag that tells the application about a new id: raised by every change, taken down by a report. */
module IrIdReports {
  import opened Words
  import opened IrIdStation
  import opened IrIdReaction

  /** What the application does with a station: it hands it an event, or asks whether the id changed. */
  datatype Call = Handle(e: Event, now: u32) | Report

  function After(s: Station, a: Call): Station
    requires StationOk(s)
  {
    match a
    case Handle(e, now) => React(s, e, now).s
    case Report => s.(idChanged := false)
  }

  /** From power-up on. */
  ghost predicate Follows(calls: seq<Call>, ss: seq<Station>) {
    && |ss| == |calls| + 1 && (exists mac :: ss[0] == Fresh(mac))
    && forall k :: 0 <= k < |calls| ==> StationOk(ss[k]) ==> ss[k + 1] == After(ss[k], calls[k])
  }

  predicate Clears(a: Call) {
    a.Report? || a.e.Boot?
  }

  /** The id changed in call k, and neither a boot nor a report came since. */
  ghost predicate Unreported(calls: seq<Call>, ss: seq<Station>, k: nat, n: nat)
    requires k < n <= |calls| < |ss|
  {
    ss[k].id != ss[k + 1].id && forall j :: k <= j < n ==> !Clears(calls[j])
  }

  lemma OneStepFlags(s: Station, e: Event, now: u32)
    requires StationOk(s) && !e.Boot?
    ensures var r := React(s, e, now).s; r.idChanged <==> s.idChanged || r.id != s.id
  {
    hide PickCandidate, MemcmpLess, Elapsed, Reached, U32, U8;
  }

  lemma CallIsSound(s: Station, a: Call)
    requires StationOk(s)
    ensures StationOk(After(s, a))
  {
    hide React;
    if a.Handle? { ReactIsSound(s, a.e, a.now); }
  }

  /** The flag is up exactly if the id changed since the last boot or report. */
  lemma {:induction false} FlagIsExact(calls: seq<Call>, ss: seq<Station>, n: nat)
    requires Follows(calls, ss) && n < |ss|
    ensures StationOk(ss[n])
    ensures ss[n].idChanged <==> exists k: nat :: k < n && Unreported(calls, ss, k, n)
  {
    if n > 0 {
      hide React, StationOk;
      var p := n - 1;
      FlagIsExact(calls, ss, p);
      CallIsSound(ss[p], calls[p]);
      if Clears(calls[p]) {
        assert !ss[n].idChanged by { BootClears(ss[p], calls[p]); }
      } else {
        OneStepFlags(ss[p], calls[p].e, calls[p].now);
        forall k: nat | k < p ensures Unreported(calls, ss, k, p) <==> Unreported(calls, ss, k, n) {
          StillUnreported(calls, ss, k, p);
        }
        assert Unreported(calls, ss, p, n) <==> ss[p].id != ss[n].id;
      }
    }
  }

  lemma StillUnreported(calls: seq<Call>, ss: seq<Station>, k: nat, n: nat)
    requires k < n < |calls| < |ss| && !Clears(calls[n])
    ensures Unreported(calls, ss, k, n) <==> Unreported(calls, ss, k, n + 1)
  {
  }

  lemma BootClears(s: Station, a: Call)
    requires StationOk(s) && Clears(a)
    ensures !After(s, a).idChanged
  {
  }
}
