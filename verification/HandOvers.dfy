/**
  Publishers that install a snapshot by compare-and-swap and hand it over to the proxy in a
  second step, with no lock around the two. A snapshot goes by its version.
 */
module HandOvers {
  import opened Wrappers

  /** The installed snapshot, those installed but not yet handed over or given up, and the one the proxy shows. */
  datatype State = State(installed: int, pending: set<int>, shown: int)

  /** `Abandon` is a hand-over that throws. */
  datatype Event = Install(version: int) | Apply(version: int) | Abandon(version: int)

  function Init(version: int): State {
    State(version, {}, version)
  }

  function Next(s: State, e: Event): Option<State> {
    match e
    case Install(v) => if v > s.installed then Some(State(v, s.pending + {v}, s.shown)) else None
    case Apply(v) => if v in s.pending then Some(State(s.installed, s.pending - {v}, v)) else None
    case Abandon(v) => if v in s.pending then Some(s.(pending := s.pending - {v})) else None
  }

  function Run(s: State, events: seq<Event>): Option<State>
    decreases |events|
  {
    if events == [] then Some(s)
    else match Next(s, events[0])
      case None => None
      case Some(s') => Run(s', events[1..])
  }

  ghost predicate Ok(s: State) {
    s.shown <= s.installed && s.shown !in s.pending && forall v :: v in s.pending ==> v <= s.installed
  }

  /** The hand-over of a version is the last one of the events. */
  ghost predicate LastApplied(events: seq<Event>, version: int) {
    exists k :: 0 <= k < |events| && events[k] == Apply(version) && forall j :: k < j < |events| ==> !events[j].Apply?
  }

  ghost predicate NoneApplied(events: seq<Event>) {
    forall e :: e in events ==> !e.Apply?
  }

  lemma LastAppliedCons(e: Event, rest: seq<Event>, version: int)
    ensures LastApplied([e] + rest, version) <==> LastApplied(rest, version) || (NoneApplied(rest) && e == Apply(version))
  {
    var events := [e] + rest;
    assert forall k :: 0 <= k < |rest| ==> events[k + 1] == rest[k];
    if LastApplied(rest, version) {
      var k :| 0 <= k < |rest| && rest[k] == Apply(version) && forall j :: k < j < |rest| ==> !rest[j].Apply?;
      assert forall j :: k + 1 < j < |events| ==> events[j] == rest[j - 1];
      assert events[k + 1] == Apply(version);
    }
    if NoneApplied(rest) && e == Apply(version) {
      assert events[0] == Apply(version) && forall j :: 0 < j < |events| ==> events[j] == rest[j - 1];
    }
    if LastApplied(events, version) {
      var k :| 0 <= k < |events| && events[k] == Apply(version) && forall j :: k < j < |events| ==> !events[j].Apply?;
      if k > 0 {
        assert rest[k - 1] == Apply(version) && forall j :: k - 1 < j < |rest| ==> rest[j] == events[j + 1];
      }
    }
  }

  /** What is shown is what was handed over last, or what was shown at the start. */
  lemma {:induction false} ShownIs(s: State, events: seq<Event>, version: int)
    requires Ok(s) && Run(s, events).Some?
    ensures Ok(Run(s, events).value) && Run(s, events).value.installed >= s.installed
    ensures Run(s, events).value.shown == version <==> LastApplied(events, version) || (NoneApplied(events) && s.shown == version)
    decreases |events|
  {
    if events != [] {
      assert events == [events[0]] + events[1..];
      ShownIs(Next(s, events[0]).value, events[1..], version);
      LastAppliedCons(events[0], events[1..], version);
      assert NoneApplied(events) <==> !events[0].Apply? && NoneApplied(events[1..]) by {
        assert forall e :: e in events <==> e == events[0] || e in events[1..];
      }
    }
  }

  /**
    Over every run the proxy never shows a snapshot newer than the installed one, and shows
    the installed one exactly when its hand-over came after every other, or nothing was
    handed over and nothing installed.
   */
  lemma ShowsInstalledIff(version: int, events: seq<Event>)
    requires Run(Init(version), events).Some?
    ensures
      var s := Run(Init(version), events).value;
      && s.shown <= s.installed
      && (s.shown == s.installed <==> LastApplied(events, s.installed) || (NoneApplied(events) && s.installed == version))
  {
    ShownIs(Init(version), events, Run(Init(version), events).value.installed);
  }

  /** Publications that do not overlap: each is handed over before the next is installed. */
  function OneByOne(versions: seq<int>): seq<Event> {
    if versions == [] then [] else [Install(versions[0]), Apply(versions[0])] + OneByOne(versions[1..])
  }

  predicate Ascending(from: int, versions: seq<int>)
    decreases |versions|
  {
    versions == [] || (versions[0] > from && Ascending(versions[0], versions[1..]))
  }

  /** So the proxy keeps up with publishers that do not overlap. */
  lemma {:induction false} OneByOneKeepsUp(s: State, versions: seq<int>)
    requires s.pending == {} && s.shown == s.installed && Ascending(s.installed, versions)
    ensures
      var end := if versions == [] then s.installed else versions[|versions| - 1];
      Run(s, OneByOne(versions)) == Some(State(end, {}, end))
    decreases |versions|
  {
    if versions != [] {
      var v, events := versions[0], OneByOne(versions);
      var s1 := State(v, s.pending + {v}, s.shown);
      assert events[0] == Install(v);
      assert s1.pending - {v} == {};
      assert events[1..] == [Apply(v)] + OneByOne(versions[1..]) && events[1..][1..] == OneByOne(versions[1..]);
      assert Run(s, events) == Run(s1, events[1..]) == Run(State(v, {}, v), events[1..][1..]);
      OneByOneKeepsUp(State(v, {}, v), versions[1..]);
    }
  }

  /** Two publishers install one after the other and hand over in the other order: nothing is pending, and the older one is shown. */
  lemma OlderOneStays()
    ensures Run(Init(0), [Install(1), Install(2), Apply(2), Apply(1)]) == Some(State(2, {}, 1))
  {
    var events := [Install(1), Install(2), Apply(2), Apply(1)];
    var s1, s2, s3 := State(1, {1}, 0), State(2, {1, 2}, 0), State(2, {1}, 2);
    assert {1} + {2} == {1, 2} && {1, 2} - {2} == {1} && {1} - {1} == {};
    assert Run(Init(0), events) == Run(s1, events[1..]) == Run(s2, events[1..][1..]);
    assert Run(s2, events[1..][1..]) == Run(s3, events[1..][1..][1..]);
    assert events[1..][1..][1..] == [Apply(1)] && [Apply(1)][1..] == [];
  }
}
