/** `processUnits` and `handleUnit`: one poll tick lists the systemd units and
    samples each of them concurrently; every unit whose sampling worked sends
    one status to the aggregator. The goroutines and the wait group become a
    multiset of results, since the order in which they arrive is not fixed. */
module Poll {
  import opened Wrappers
  import opened Schema

  /** `systemd.SystemdUnitProps`: a unit's name and main PID. */
  datatype UnitProps = UnitProps(name: string, pid: Uint32)

  /** What `proc.LoadByPID` returned for one unit. */
  datatype Probe = Sampled(usage: CpuUsage) | ProbeFailed(reason: string)

  /** What `systemd.GetSystemdUnitsProps` returned for the tick. */
  datatype Listing = Listed(units: seq<UnitProps>) | ListFailed(reason: string)

  /** The error `processUnits` returns when the units cannot be listed. */
  datatype PollError = UnableToListUnits(reason: string)

  /** The result of one tick: the statuses sent to the aggregator and the error. */
  datatype TickReport = TickReport(results: multiset<UnitStatus>, error: Option<PollError>)

  /** The status a unit sends when it was sampled. */
  function StatusOf(unit: UnitProps, usage: CpuUsage): (s: UnitStatus)
  {
    UnitStatus(unit.name, unit.pid, usage)
  }

  /** `handleUnit` for one unit, given what sampling returned and whether the
      context was already cancelled when the result was ready to be sent. */
  function HandleUnit(unit: UnitProps, probe: Probe, cancelled: bool): (r: Option<UnitStatus>)
    ensures r.Some? <==> probe.Sampled? && !cancelled
    ensures r.Some? ==> r.value.name == unit.name && r.value.pid == unit.pid && r.value.usage == probe.usage
  {
    match probe
    case ProbeFailed(_) => None
    case Sampled(usage) => if cancelled then None else Some(StatusOf(unit, usage))
  }

  /** Unit `i` of the listing sends a status. */
  predicate Sends(units: seq<UnitProps>, probe: nat -> Probe, cancelled: nat -> bool, i: nat)
  {
    i < |units| && probe(i).Sampled? && !cancelled(i)
  }

  /** The statuses sent by units `i` onwards, in listing order. */
  function CollectFrom(units: seq<UnitProps>, probe: nat -> Probe, cancelled: nat -> bool, i: nat): (rs: seq<UnitStatus>)
    requires i <= |units|
    ensures |rs| <= |units| - i
    decreases |units| - i
  {
    if i == |units| then []
    else
      var rest := CollectFrom(units, probe, cancelled, i + 1);
      match HandleUnit(units[i], probe(i), cancelled(i))
      case Some(s) => [s] + rest
      case None => rest
  }

  /** `processUnits`: list the units, run `handleUnit` on each, wait for all. */
  function ProcessUnits(listing: Listing, probe: nat -> Probe, cancelled: nat -> bool): (r: TickReport)
    ensures listing.ListFailed? ==> r.results == multiset{} && r.error == Some(UnableToListUnits(listing.reason))
    ensures listing.Listed? ==> r.error.None? && |r.results| <= |listing.units|
  {
    match listing
    case ListFailed(reason) => TickReport(multiset{}, Some(UnableToListUnits(reason)))
    case Listed(units) => TickReport(Results(units, probe, cancelled, 0), None)
  }

  /** A status is among the results exactly when some unit that was sampled
      successfully, and not cancelled, produced it. */
  lemma {:induction false} CollectMembership(units: seq<UnitProps>, probe: nat -> Probe, cancelled: nat -> bool, i: nat, s: UnitStatus)
    requires i <= |units|
    ensures s in CollectFrom(units, probe, cancelled, i) <==>
              exists j :: i <= j < |units| && Sends(units, probe, cancelled, j) && s == StatusOf(units[j], probe(j).usage)
    decreases |units| - i
  {
    if i < |units| {
      CollectMembership(units, probe, cancelled, i + 1, s);
      if Sends(units, probe, cancelled, i) && s == StatusOf(units[i], probe(i).usage) {
        assert s in CollectFrom(units, probe, cancelled, i);
      }
    }
  }

  /** Tick-level membership: a listing failure yields nothing; otherwise a
      status arrives iff a unit sampled without error sent it. */
  lemma ResultsAreSampledUnits(listing: Listing, probe: nat -> Probe, cancelled: nat -> bool, s: UnitStatus)
    ensures var r := ProcessUnits(listing, probe, cancelled);
            s in r.results <==>
              && listing.Listed?
              && exists j :: 0 <= j < |listing.units| && Sends(listing.units, probe, cancelled, j)
                             && s == StatusOf(listing.units[j], probe(j).usage)
  {
    if listing.Listed? {
      CollectMembership(listing.units, probe, cancelled, 0, s);
    }
  }

  /** What unit `i` alone adds to the results. */
  function Contribution(units: seq<UnitProps>, probe: nat -> Probe, cancelled: nat -> bool, i: nat): (m: multiset<UnitStatus>)
    requires i < |units|
    ensures |m| <= 1
  {
    match HandleUnit(units[i], probe(i), cancelled(i))
    case Some(s) => multiset{s}
    case None => multiset{}
  }

  /** The results from `i` on are unit `i`'s contribution plus the rest. */
  lemma CollectSplit(units: seq<UnitProps>, probe: nat -> Probe, cancelled: nat -> bool, i: nat)
    requires i < |units|
    ensures multiset(CollectFrom(units, probe, cancelled, i))
            == Contribution(units, probe, cancelled, i) + multiset(CollectFrom(units, probe, cancelled, i + 1))
  {
  }

  /** The results the units from `i` on send, in no particular order. */
  function Results(units: seq<UnitProps>, probe: nat -> Probe, cancelled: nat -> bool, i: nat): (results: multiset<UnitStatus>)
    requires i <= |units|
  {
    multiset(CollectFrom(units, probe, cancelled, i))
  }

  /** The oracles agree on every unit but `k`, where `failing` reports an error. */
  ghost predicate FailsOnlyAt(probe: nat -> Probe, failing: nat -> Probe, k: nat)
  {
    failing(k).ProbeFailed? && forall j :: j != k ==> failing(j) == probe(j)
  }

  /** The claim of `FailureIsolated` for the units from `i` on. */
  ghost predicate IsolatedFrom(units: seq<UnitProps>, probe: nat -> Probe, failing: nat -> Probe,
                               cancelled: nat -> bool, k: nat, i: nat)
    requires i <= |units| && k < |units|
  {
    Results(units, probe, cancelled, i) ==
      Results(units, failing, cancelled, i) + (if i <= k then Contribution(units, probe, cancelled, k) else multiset{})
  }

  /** A unit whose sampling fails affects no other unit: the results with
      unit `k` failing are the results with it succeeding, less its own
      status. */
  lemma {:induction false} FailureIsolated(units: seq<UnitProps>, probe: nat -> Probe, failing: nat -> Probe,
                                           cancelled: nat -> bool, k: nat, i: nat)
    requires i <= |units| && k < |units|
    requires FailsOnlyAt(probe, failing, k)
    ensures Results(units, probe, cancelled, i) ==
              Results(units, failing, cancelled, i) +
              (if i <= k then Contribution(units, probe, cancelled, k) else multiset{})
    decreases |units| - i
  {
    if i < |units| {
      FailureIsolated(units, probe, failing, cancelled, k, i + 1);
      assert IsolatedFrom(units, probe, failing, cancelled, k, i + 1);
      IsolatedStep(units, probe, failing, cancelled, k, i);
      assert IsolatedFrom(units, probe, failing, cancelled, k, i);
    }
  }

  /** One step of `FailureIsolated`: from the units after `i` to unit `i` on. */
  lemma IsolatedStep(units: seq<UnitProps>, probe: nat -> Probe, failing: nat -> Probe,
                     cancelled: nat -> bool, k: nat, i: nat)
    requires i < |units| && k < |units|
    requires FailsOnlyAt(probe, failing, k)
    requires IsolatedFrom(units, probe, failing, cancelled, k, i + 1)
    ensures IsolatedFrom(units, probe, failing, cancelled, k, i)
  {
    CollectSplit(units, probe, cancelled, i);
    CollectSplit(units, failing, cancelled, i);
    var own := Contribution(units, probe, cancelled, k);
    var cp, cf := Contribution(units, probe, cancelled, i), Contribution(units, failing, cancelled, i);
    var rp, rf := Results(units, probe, cancelled, i + 1), Results(units, failing, cancelled, i + 1);
    if i == k {
      assert cf == multiset{};
      AddInFront(rp, rf, multiset{}, cp, cf, own);
    } else {
      assert failing(i) == probe(i);
      assert cf == cp;
      var extra := if i + 1 <= k then own else multiset{};
      AddInFront(rp, rf, extra, cp, cf, extra);
    }
  }

  /** The multiset step of `FailureIsolated`: a difference between two tails
      carries over when both get the same head, and grows by the head when
      only one of them gets it. */
  lemma AddInFront<T>(tail: multiset<T>, tail': multiset<T>, diff: multiset<T>, head: multiset<T>, head': multiset<T>, diff': multiset<T>)
    requires tail == tail' + diff
    requires (head' == head && diff' == diff) || (head' == multiset{} && diff == multiset{} && diff' == head)
    ensures head + tail == (head' + tail') + diff'
  {
  }
}
