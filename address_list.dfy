/**
 * The parsing half of `findAndRegisterClientFor`: the chosen address is
 * trimmed as a whole and split on ','; every non-blank segment `host:port`
 * is split on ':', its weight is looked up (with the untrimmed segment) and
 * one provider-added event is emitted for it, in order. The first bad
 * segment ends the call with an exception; the events already emitted stay.
 *
 * `Bootstrap` is the specification the imperative loop in
 * `ClientManagerModel.ClientManager.FindAndRegisterClientFor` is proved against.
 */
module AddressList {
  import opened Wrappers
  import opened Sequences
  import opened JavaText
  import opened Resolution

  /** `ServiceProviderChangeEvent`: which service gained or lost which provider. */
  datatype ProviderEvent = ProviderEvent(serviceName: string, host: string, port: int, weight: int)

  /** What one segment of the address list does. */
  datatype EntryResult = Skip | Emit(event: ProviderEvent) | Fail(failure: Failure)

  /** The events a bootstrap call emits, and the exception it ends with, if any. */
  datatype Plan = Plan(events: seq<ProviderEvent>, failure: Option<Failure>)

  /**
   * One iteration of the loop: blank segments are skipped; `parts[0]` of an
   * empty split throws outside the `try`; inside it the weight is looked up
   * first, then `parts[1]` is read and parsed as the port.
   */
  function ParseEntry(serviceName: string, segment: string, weightOf: string -> Lookup<int>): (r: EntryResult)
    ensures r.Emit? ==> r.event.serviceName == serviceName
  {
    if AllWhitespace(segment) then Skip
    else
      var parts := Split(segment, ':');
      if |parts| == 0 then Fail(HostMissing(segment))
      else
        match weightOf(segment)
        case Threw => Fail(EntryFailed(segment, WeightLookupFailed))
        case Returned(weight) =>
          if |parts| < 2 then Fail(EntryFailed(segment, PortMissing))
          else
            match ParseInt(parts[1])
            case None => Fail(EntryFailed(segment, PortNotInteger))
            case Some(port) => Emit(ProviderEvent(serviceName, parts[0], port, weight))
  }

  /** What each segment does, segment by segment. */
  function Outcomes(serviceName: string, segments: seq<string>, weightOf: string -> Lookup<int>): (r: seq<EntryResult>)
    ensures |r| == |segments|
    ensures forall k :: 0 <= k < |segments| ==> r[k] == ParseEntry(serviceName, segments[k], weightOf)
  {
    var parse := segment => ParseEntry(serviceName, segment, weightOf);
    MapSeqEach(parse, segments);
    MapSeq(parse, segments)
  }

  /** The loop over the outcomes: emit what each emits, stop at the first failure. */
  function Run(outcomes: seq<EntryResult>): (r: Plan)
    ensures |r.events| <= |outcomes|
    ensures r.failure.Some? ==> Fail(r.failure.value) in outcomes
  {
    if |outcomes| == 0 then Plan([], None)
    else
      match outcomes[0]
      case Skip => Run(outcomes[1..])
      case Emit(e) =>
        var rest := Run(outcomes[1..]);
        Plan([e] + rest.events, rest.failure)
      case Fail(f) => Plan([], Some(f))
  }

  /** The loop of `findAndRegisterClientFor` over the segments of the address list. */
  function PlanEntries(serviceName: string, segments: seq<string>, weightOf: string -> Lookup<int>): (r: Plan)
    ensures |r.events| <= |segments|
  {
    Run(Outcomes(serviceName, segments, weightOf))
  }

  /** The whole `findAndRegisterClientFor`: choose the address, then parse it. */
  function Bootstrap(serviceName: string, vip: Option<string>, env: Lookup<Option<string>>,
                     discovery: Lookup<Option<string>>, weightOf: string -> Lookup<int>): (r: Plan)
    ensures r.events != [] ==> SelectAddress(vip, env, discovery).Ok?
    ensures SelectAddress(vip, env, discovery).Err? ==> r.failure == Some(SelectAddress(vip, env, discovery).error)
  {
    match SelectAddress(vip, env, discovery)
    case Err(f) => Plan([], Some(f))
    case Ok(address) => PlanEntries(serviceName, Split(Trim(address), ','), weightOf)
  }

  /** The segments that are not blank, in order. */
  function NonBlank(segments: seq<string>): seq<string> {
    if |segments| == 0 then []
    else if AllWhitespace(segments[0]) then NonBlank(segments[1..])
    else [segments[0]] + NonBlank(segments[1..])
  }

  // ---------------------------------------------------------------------------
  // One segment
  // ---------------------------------------------------------------------------

  /**
   * A segment emits exactly when it is not blank, its weight lookup returns,
   * it holds a ':' and the field after the first ':' parses as an `int`.
   * The event's host is the text before the first ':', its port that field,
   * its weight the one looked up with the untrimmed segment.
   */
  lemma EntryEmits(serviceName: string, segment: string, weightOf: string -> Lookup<int>)
    ensures ParseEntry(serviceName, segment, weightOf).Emit? <==>
      !AllWhitespace(segment) && weightOf(segment).Returned? && ':' in segment &&
      ParseInt(TakeUntil(After(segment, ':'), ':')).Some?
    ensures ParseEntry(serviceName, segment, weightOf).Emit? ==>
      ParseEntry(serviceName, segment, weightOf).event ==
        ProviderEvent(serviceName, TakeUntil(segment, ':'),
                      ParseInt(TakeUntil(After(segment, ':'), ':')).value, weightOf(segment).value)
  {
    var parts := Split(segment, ':');
    var fields := Fields(segment, ':');
    SplitKeepsFields(segment, ':');
    FieldsHead(segment, ':');
    if ':' in segment {
      FieldsHead(After(segment, ':'), ':');
      assert fields[1] == TakeUntil(After(segment, ':'), ':');
      if ParseInt(fields[1]).Some? {
        assert |fields[1]| >= 1;
        assert |parts| >= 2;
      }
    } else {
      FieldsWithoutSeparator(segment, ':');
    }
  }

  /** A segment is skipped exactly when it is blank, and then nothing is looked up or emitted. */
  lemma EntrySkips(serviceName: string, segment: string, weightOf: string -> Lookup<int>)
    ensures ParseEntry(serviceName, segment, weightOf) == Skip <==> AllWhitespace(segment)
  {
  }

  /** A segment of ':' only is the one that fails before the weight is looked up. */
  lemma EntryHostMissing(serviceName: string, segment: string, weightOf: string -> Lookup<int>)
    ensures ParseEntry(serviceName, segment, weightOf).Fail? &&
            ParseEntry(serviceName, segment, weightOf).failure.HostMissing? <==>
      |segment| > 0 && forall i :: 0 <= i < |segment| ==> segment[i] == ':'
  {
    var fields := Fields(segment, ':');
    SplitKeepsFields(segment, ':');
    JoinFields(segment, ':');
    if |segment| > 0 && forall i :: 0 <= i < |segment| ==> segment[i] == ':' {
      assert segment[0] == ':' && !IsWhitespace(':');
      FieldsOfSeparators(segment, ':');
    } else if |segment| > 0 && Split(segment, ':') == [] {
      forall i | 0 <= i < |segment| ensures segment[i] == ':' {
        AllEmptyJoin(fields, ':', i);
      }
    }
  }

  /** A text made only of separators has only empty fields. */
  lemma {:induction false} FieldsOfSeparators(s: string, sep: char)
    requires forall i :: 0 <= i < |s| ==> s[i] == sep
    ensures forall k :: 0 <= k < |Fields(s, sep)| ==> Fields(s, sep)[k] == ""
  {
    if |s| > 0 {
      FieldsOfSeparators(s[1..], sep);
    }
  }

  /** Joining empty fields gives separators only. */
  lemma {:induction false} AllEmptyJoin(fs: seq<string>, sep: char, i: nat)
    requires |fs| >= 1 && forall k :: 0 <= k < |fs| ==> fs[k] == ""
    requires i < |Join(fs, sep)|
    ensures Join(fs, sep)[i] == sep
  {
    if |fs| > 1 {
      assert Join(fs, sep) == [sep] + Join(fs[1..], sep);
      if i > 0 {
        AllEmptyJoin(fs[1..], sep, i - 1);
      }
    }
  }

  // ---------------------------------------------------------------------------
  // The loop
  // ---------------------------------------------------------------------------

  /** Running over `a + b` runs over `a`; if that failed `b` is never looked at, otherwise `b`'s events follow. */
  lemma {:induction false} RunAppend(a: seq<EntryResult>, b: seq<EntryResult>)
    ensures Run(a + b) ==
      if Run(a).failure.Some? then Run(a) else Plan(Run(a).events + Run(b).events, Run(b).failure)
  {
    if |a| > 0 {
      assert (a + b)[0] == a[0];
      assert (a + b)[1..] == a[1..] + b;
      RunAppend(a[1..], b);
      if a[0].Emit? {
        var e, pa, pb := a[0].event, Run(a[1..]), Run(b);
        assert [e] + (pa.events + pb.events) == ([e] + pa.events) + pb.events;
      }
    } else {
      assert a + b == b;
    }
  }

  /**
   * Running the loop over segments `a + b` runs it over `a`; if that failed,
   * `b` is never looked at, otherwise the events of `b` follow those of `a`.
   */
  lemma PlanAppend(serviceName: string, a: seq<string>, b: seq<string>, weightOf: string -> Lookup<int>)
    ensures PlanEntries(serviceName, a + b, weightOf) ==
      var pa := PlanEntries(serviceName, a, weightOf);
      if pa.failure.Some? then pa
      else
        var pb := PlanEntries(serviceName, b, weightOf);
        Plan(pa.events + pb.events, pb.failure)
  {
    OutcomesAppend(serviceName, a, b, weightOf);
    RunAppend(Outcomes(serviceName, a, weightOf), Outcomes(serviceName, b, weightOf));
  }

  /** The outcomes of `a + b` are those of `a` followed by those of `b`. */
  lemma OutcomesAppend(serviceName: string, a: seq<string>, b: seq<string>, weightOf: string -> Lookup<int>)
    ensures Outcomes(serviceName, a + b, weightOf) == Outcomes(serviceName, a, weightOf) + Outcomes(serviceName, b, weightOf)
  {
    MapSeqAppend(segment => ParseEntry(serviceName, segment, weightOf), a, b);
  }

  /** The events of the outcomes that emit, in order. */
  function Emitted(outcomes: seq<EntryResult>): seq<ProviderEvent> {
    if |outcomes| == 0 then []
    else if outcomes[0].Emit? then [outcomes[0].event] + Emitted(outcomes[1..])
    else Emitted(outcomes[1..])
  }

  /** A run ends normally exactly when no outcome is a failure, and then it emits the events of the emitting outcomes. */
  lemma {:induction false} RunSucceeds(outcomes: seq<EntryResult>)
    ensures Run(outcomes).failure.None? <==> forall k :: 0 <= k < |outcomes| ==> !outcomes[k].Fail?
    ensures Run(outcomes).failure.None? ==> Run(outcomes).events == Emitted(outcomes)
  {
    if |outcomes| > 0 {
      RunSucceeds(outcomes[1..]);
      assert forall k :: 1 <= k < |outcomes| ==> outcomes[k] == outcomes[1..][k - 1];
    }
  }

  /** When no segment fails, the emitting segments are exactly the non-blank ones, in order. */
  lemma {:induction false} EmittedNonBlank(serviceName: string, segments: seq<string>, weightOf: string -> Lookup<int>)
    requires forall k :: 0 <= k < |segments| ==> !ParseEntry(serviceName, segments[k], weightOf).Fail?
    ensures var events := Emitted(Outcomes(serviceName, segments, weightOf));
      |events| == |NonBlank(segments)| &&
      forall k :: 0 <= k < |events| ==> ParseEntry(serviceName, NonBlank(segments)[k], weightOf) == Emit(events[k])
  {
    if |segments| > 0 {
      var first, rest := segments[0], segments[1..];
      var outcomes := Outcomes(serviceName, segments, weightOf);
      var restOutcomes := Outcomes(serviceName, rest, weightOf);
      OutcomesAppend(serviceName, [first], rest, weightOf);
      assert [first] + rest == segments;
      assert outcomes[0] == ParseEntry(serviceName, first, weightOf);
      assert outcomes[1..] == restOutcomes;
      assert forall k :: 0 <= k < |rest| ==> rest[k] == segments[k + 1];
      EmittedNonBlank(serviceName, rest, weightOf);
      EntrySkips(serviceName, first, weightOf);
      var events, restEvents := Emitted(outcomes), Emitted(restOutcomes);
      if !AllWhitespace(first) {
        var e := ParseEntry(serviceName, first, weightOf).event;
        assert events == [e] + restEvents;
        assert NonBlank(segments) == [first] + NonBlank(rest);
        forall k | 0 < k < |events|
          ensures ParseEntry(serviceName, NonBlank(segments)[k], weightOf) == Emit(events[k])
        {
          assert NonBlank(segments)[k] == NonBlank(rest)[k - 1] && events[k] == restEvents[k - 1];
        }
      }
    }
  }

  /**
   * A run that ends normally emits one event per non-blank segment, in list
   * order, and is one where no segment fails.
   */
  lemma PlanSucceeds(serviceName: string, segments: seq<string>, weightOf: string -> Lookup<int>)
    ensures PlanEntries(serviceName, segments, weightOf).failure.None? <==>
      forall k :: 0 <= k < |segments| ==> !ParseEntry(serviceName, segments[k], weightOf).Fail?
    ensures PlanEntries(serviceName, segments, weightOf).failure.None? ==>
      var events := PlanEntries(serviceName, segments, weightOf).events;
      |events| == |NonBlank(segments)| &&
      forall k :: 0 <= k < |events| ==> ParseEntry(serviceName, NonBlank(segments)[k], weightOf) == Emit(events[k])
  {
    RunSucceeds(Outcomes(serviceName, segments, weightOf));
    if PlanEntries(serviceName, segments, weightOf).failure.None? {
      EmittedNonBlank(serviceName, segments, weightOf);
    }
  }

  /**
   * A run that fails, fails at the first failing segment: the events are
   * those of the segments before it, and nothing after it is processed.
   */
  lemma PlanStopsAtFirstFailure(serviceName: string, segments: seq<string>, k: nat, weightOf: string -> Lookup<int>)
    requires k < |segments| && ParseEntry(serviceName, segments[k], weightOf).Fail?
    requires forall j :: 0 <= j < k ==> !ParseEntry(serviceName, segments[j], weightOf).Fail?
    ensures PlanEntries(serviceName, segments, weightOf) ==
      Plan(PlanEntries(serviceName, segments[..k], weightOf).events,
           Some(ParseEntry(serviceName, segments[k], weightOf).failure))
  {
    RunSucceeds(Outcomes(serviceName, segments[..k], weightOf));
    PlanAppend(serviceName, segments[..k], segments[k..], weightOf);
    assert segments == segments[..k] + segments[k..];
    assert Outcomes(serviceName, segments[k..], weightOf)[0] == ParseEntry(serviceName, segments[k], weightOf);
  }

  /** Every event a run emits comes from an emitting outcome. */
  lemma {:induction false} RunEventsEmitted(outcomes: seq<EntryResult>)
    ensures forall e :: e in Run(outcomes).events ==> Emit(e) in outcomes
  {
    if |outcomes| > 0 {
      RunEventsEmitted(outcomes[1..]);
    }
  }

  // ---------------------------------------------------------------------------
  // The whole call
  // ---------------------------------------------------------------------------

  /** A blank chosen address fails the call before any event is emitted. */
  lemma BlankAddressEmitsNothing(serviceName: string, vip: Option<string>, env: Lookup<Option<string>>,
                                 discovery: Lookup<Option<string>>, weightOf: string -> Lookup<int>)
    requires ResolveAddress(vip, env, discovery).Ok? && IsBlank(ResolveAddress(vip, env, discovery).value)
    ensures Bootstrap(serviceName, vip, env, discovery, weightOf) == Plan([], Some(NoServiceAddress))
  {
  }

  /** Whenever the address choice fails, no event is emitted. */
  lemma SelectionFailureEmitsNothing(serviceName: string, vip: Option<string>, env: Lookup<Option<string>>,
                                     discovery: Lookup<Option<string>>, weightOf: string -> Lookup<int>)
    requires SelectAddress(vip, env, discovery).Err?
    ensures Bootstrap(serviceName, vip, env, discovery, weightOf) ==
      Plan([], Some(SelectAddress(vip, env, discovery).error))
  {
  }

  /**
   * Discovery throws and the vip is one `host:port` entry whose weight
   * lookup returns: exactly one provider is added, for that entry, and no
   * exception is raised.
   */
  lemma FallbackToSingleVip(serviceName: string, vip: string, env: Lookup<Option<string>>,
                            weightOf: string -> Lookup<int>)
    requires !AllWhitespace(vip) && ',' !in vip && Trim(vip) == vip
    requires ParseEntry(serviceName, vip, weightOf).Emit?
    ensures Bootstrap(serviceName, Some(vip), env, Threw, weightOf) ==
      Plan([ParseEntry(serviceName, vip, weightOf).event], None)
  {
    DiscoveryThrows(Some(vip), env);
    assert SelectAddress(Some(vip), env, Threw) == Ok(vip);
    assert Split(Trim(vip), ',') == [vip];
    var e := ParseEntry(serviceName, vip, weightOf);
    var outcomes := Outcomes(serviceName, [vip], weightOf);
    assert outcomes == [e] && outcomes[1..] == [];
    assert Run(outcomes) == Plan([e.event] + Run([]).events, None);
  }

  /**
   * The example of the fallback case: discovery throws, the vip is
   * "10.0.0.1:8080" and its weight lookup returns, so exactly one provider
   * is added, host "10.0.0.1" port 8080.
   */
  lemma FallbackRegistersVip(serviceName: string, env: Lookup<Option<string>>, weightOf: string -> Lookup<int>)
    requires weightOf("10.0.0.1:8080").Returned?
    ensures Bootstrap(serviceName, Some("10.0.0.1:8080"), env, Threw, weightOf) ==
      Plan([ProviderEvent(serviceName, "10.0.0.1", 8080, weightOf("10.0.0.1:8080").value)], None)
  {
    var vip := "10.0.0.1:8080";
    VipSegments();
    VipFields();
    EightyEighty();
    EntryEmits(serviceName, vip, weightOf);
    FallbackToSingleVip(serviceName, vip, env, weightOf);
  }

  /** How the fallback address "10.0.0.1:8080" is trimmed and split on ','. */
  lemma VipSegments()
    ensures !AllWhitespace("10.0.0.1:8080")
    ensures ',' !in "10.0.0.1:8080" && Trim("10.0.0.1:8080") == "10.0.0.1:8080"
  {
    var vip := "10.0.0.1:8080";
    assert !IsWhitespace(vip[0]);
    assert TrimStart(vip) == vip;
    assert TrimEnd(vip) == vip;
    assert ',' !in vip by { assert forall i :: 0 <= i < |vip| ==> vip[i] != ','; }
  }

  /** How its one segment is cut at ':'. */
  lemma VipFields()
    ensures ':' in "10.0.0.1:8080"
    ensures TakeUntil("10.0.0.1:8080", ':') == "10.0.0.1"
    ensures TakeUntil(After("10.0.0.1:8080", ':'), ':') == "8080"
  {
    var host, port := "10.0.0.1", "8080";
    assert ':' !in host by { assert forall i :: 0 <= i < |host| ==> host[i] != ':'; }
    assert ':' !in port by { assert forall i :: 0 <= i < |port| ==> port[i] != ':'; }
    assert host + [':'] + port == "10.0.0.1:8080";
    CutAtFirst(host, ':', port);
    TakeUntilNone(port, ':');
  }

  /** A text cut at the first `c`, when the part before it holds no `c`. */
  lemma {:induction false} CutAtFirst(before: string, c: char, after: string)
    requires c !in before
    ensures c in before + [c] + after
    ensures TakeUntil(before + [c] + after, c) == before
    ensures After(before + [c] + after, c) == after
  {
    var s := before + [c] + after;
    assert s[|before|] == c;
    if |before| > 0 {
      assert s[1..] == before[1..] + [c] + after;
      CutAtFirst(before[1..], c, after);
      assert before == [before[0]] + before[1..];
    }
  }

  lemma EightyEighty()
    ensures ParseInt("8080") == Some(8080)
  {
    assert "8080"[..3] == "808" && "808"[..2] == "80" && "80"[..1] == "8" && "8"[..0] == "";
    assert DigitsValue("8") == 8;
    assert DigitsValue("80") == 80;
    assert DigitsValue("808") == 808;
    assert DigitsValue("8080") == 8080;
  }

  /** The text before a first `c` found at index `i`. */
  lemma {:induction false} TakeUntilAt(s: string, c: char, i: nat)
    requires i < |s| && s[i] == c && c !in s[..i]
    ensures TakeUntil(s, c) == s[..i]
  {
    if i > 0 {
      assert s[1..][..i - 1] == s[1..i];
      assert s[1..][i - 1] == c;
      assert c !in s[1..][..i - 1];
      TakeUntilAt(s[1..], c, i - 1);
      assert s[..i] == [s[0]] + s[1..i];
    }
  }

  /** The text after a first `c` found at index `i`. */
  lemma {:induction false} AfterAt(s: string, c: char, i: nat)
    requires i < |s| && s[i] == c && c !in s[..i]
    ensures After(s, c) == s[i + 1..]
  {
    if i > 0 {
      assert s[1..][i - 1] == c;
      assert s[1..][..i - 1] == s[1..i];
      AfterAt(s[1..], c, i - 1);
    }
  }

  /** Without `c`, the text before it is everything. */
  lemma {:induction false} TakeUntilNone(s: string, c: char)
    requires c !in s
    ensures TakeUntil(s, c) == s
  {
    if |s| > 0 {
      TakeUntilNone(s[1..], c);
      assert [s[0]] + s[1..] == s;
    }
  }
}
