/** The three extraction steps of the scraper. Each one works by changing the caller's
    accumulator list of records in place, so the list is an object, `InformationList`, and each step
    a method on it; the loops of the steps are methods proved against the functions of `Records`. */
module Extractor {
  import opened PyStr
  import opened Records
  import Properties

  /** One pass of the detail loop (one `<li>` text, already stripped): the first test the line
      passes picks the branch that stores its entry; on the last line `Industry` is set from what
      `detail` then holds. */
  method ClassifyDetail(information: Fields, detail: string, index: nat, last: bool) returns (r: Result<Fields>)
    ensures r == ApplyLine(information, detail, index, last)
  {
    var updated := information;
    // `detail` is rebound to its token list by the Locations and Employees branches
    var rebound := Text(detail);
    if Contains(detail, ":") {
      var parts := Split(detail, ":");
      if |parts| != 2 {
        return Err(UnpackError(detail));
      }
      updated := updated[Strip(parts[0]) := Text(Strip(parts[1]))];
    } else if Contains(detail, " in ") {
      var parts := Split(detail, "in");
      if |parts| != 2 {
        return Err(UnpackError(detail));
      }
      updated := updated[Strip(parts[0]) := Text(Strip(parts[1]))];
    } else if Contains(detail, "Locations") {
      var tokens := Split(detail, " ");
      rebound := TextList(tokens);
      updated := updated[Branches := Text(tokens[0])];
    } else if Contains(detail, "Employees") {
      var tokens := Split(detail, " ");
      rebound := TextList(tokens);
      updated := updated[Size := Text(tokens[0])];
    } else if index == 0 {
      updated := updated[Url := Text(detail)];
    }
    if last {
      updated := updated[Industry := rebound];
    }
    r := Ok(updated);
  }

  /** The detail loop of one overview container, over the `<li>` texts in order. */
  method ExtractDetails(header: Fields, lines: seq<string>) returns (r: Result<Fields>)
    ensures r == ApplyDetails(header, StripAll(lines), 0)
  {
    ghost var details := StripAll(lines);
    var information := header;
    var index := 0;
    while index < |lines|
      invariant 0 <= index <= |lines|
      invariant ApplyDetails(information, details, index) == ApplyDetails(header, details, 0)
    {
      var detail := Strip(lines[index]);
      var step := ClassifyDetail(information, detail, index, index == |lines| - 1);
      if step.Err? {
        return Err(step.error);
      }
      information := step.value;
      index := index + 1;
    }
    r := Ok(information);
  }

  /** The body of the container loop: the header's name and rating, then the detail loop. */
  method ReadContainer(container: Container) returns (r: Result<Fields>)
    ensures r == Overview(container)
  {
    var information: Fields := map[];
    if container.header.Some? {
      var header := container.header.value;
      if header.heading.Some? {
        information := information[CompanyName := Text(Strip(header.heading.value))];
      }
      if header.rating.Some? {
        information := information[CompanyRating := Text(Strip(header.rating.value))];
      }
    }
    if container.details.Some? {
      r := ExtractDetails(information, container.details.value);
    } else {
      r := Ok(information);
      assert r == ApplyDetails(information, StripAll([]), 0);
    }
  }

  /** The interview loop: each (label, percentage) pair goes to the experience list when its label
      is Positive, Negative or Neutral, and to the getting-an-interview list otherwise. */
  method RouteInterviewLabels(pairs: seq<Pair>) returns (experience: seq<Pair>, gettingInterview: seq<Pair>)
    ensures experience == Routed(pairs, true)
    ensures gettingInterview == Routed(pairs, false)
  {
    experience, gettingInterview := [], [];
    for i := 0 to |pairs|
      invariant experience == Routed(pairs[..i], true)
      invariant gettingInterview == Routed(pairs[..i], false)
    {
      var (text, percentage) := pairs[i];
      if text == "Positive" || text == "Negative" || text == "Neutral" {
        experience := experience + [(text, percentage)];
      } else {
        gettingInterview := gettingInterview + [(text, percentage)];
      }
      assert pairs[..i + 1][..i] == pairs[..i];
    }
    assert pairs[..|pairs|] == pairs;
  }

  /** The accumulator `information_list` that the extraction steps of one company page share. */
  class InformationList {
    /** The records, in the order they were appended. */
    var entries: seq<Fields>

    constructor ()
      ensures entries == []
    {
      entries := [];
    }

    /** `extract_information_overview`: one record per overview container, appended in order.
        An unpack error aborts the step; the records of the earlier containers stay appended. */
    method ExtractInformationOverview(containers: seq<Container>) returns (outcome: Outcome)
      modifies this
      ensures entries == old(entries) + Overviews(containers).records
      ensures outcome == Overviews(containers).outcome
    {
      ghost var results := Readings(containers);
      ghost var batch := Collect(results, 0);
      var i := 0;
      while i < |containers|
        invariant 0 <= i <= |batch.records|
        invariant entries == old(entries) + batch.records[..i]
      {
        var information := ReadContainer(containers[i]);
        Properties.CollectAt(results, i);
        if information.Err? {
          assert batch.records[..i] == batch.records;
          return Fail(information.error);
        }
        entries := entries + [information.value];
        i := i + 1;
      }
      Properties.CollectDone(results);
      assert batch.records[..i] == batch.records;
      outcome := Pass;
    }

    /** `extract_interviews`: route the interview pairs and merge Difficulty, Experience and
        Interview into the first record. A missing landmark or an empty list is an error that
        leaves the list unchanged. */
    method ExtractInterviews(stats: Option<seq<Pair>>, difficulty: Option<string>) returns (outcome: Outcome)
      modifies this
      ensures stats.None? ==> outcome == Fail(MissingElement(InterviewStatsLandmark))
      ensures stats.Some? && difficulty.None? ==> outcome == Fail(MissingElement(DifficultyLandmark))
      ensures stats.Some? && difficulty.Some? && old(entries) == [] ==> outcome == Fail(EmptyAccumulator)
      ensures outcome.Pass? <==> stats.Some? && difficulty.Some? && old(entries) != []
      ensures outcome.Fail? ==> entries == old(entries)
      ensures outcome.Pass? ==>
                && |entries| == |old(entries)| > 0
                && entries[1..] == old(entries)[1..]
                && entries[0] == old(entries)[0] + InterviewFields(stats.value, difficulty.value)
    {
      if stats.None? {
        return Fail(MissingElement(InterviewStatsLandmark));
      }
      var experience, gettingInterview := RouteInterviewLabels(stats.value);
      if difficulty.None? {
        return Fail(MissingElement(DifficultyLandmark));
      }
      var level := Strip(difficulty.value);
      if entries == [] {
        return Fail(EmptyAccumulator);
      }
      var update := map[Difficulty := Text(level), Experience := PairList(experience), Interview := PairList(gettingInterview)];
      entries := [entries[0] + update] + entries[1..];
      outcome := Pass;
    }

    /** `extract_career`: when the popular-careers section exists, set Popular Careers on the first
        record to the anchor text of each career entry, in order; otherwise change nothing. */
    method ExtractCareer(careers: Option<seq<Option<string>>>) returns (outcome: Outcome)
      modifies this
      ensures careers.None? ==> outcome == Pass
      ensures careers.Some? && CareerNames(careers.value).None? ==> outcome == Fail(MissingElement(CareerAnchor))
      ensures careers.Some? && CareerNames(careers.value).Some? && old(entries) == [] ==> outcome == Fail(EmptyAccumulator)
      ensures outcome.Pass? <==> careers.None? || (CareerNames(careers.value).Some? && old(entries) != [])
      ensures outcome.Fail? || careers.None? ==> entries == old(entries)
      ensures outcome.Pass? && careers.Some? ==>
                && |entries| == |old(entries)| > 0
                && entries[1..] == old(entries)[1..]
                && entries[0] == old(entries)[0][PopularCareers := TextList(CareerNames(careers.value).value)]
    {
      if careers.None? {
        return Pass;
      }
      var names := CareerNames(careers.value);
      if names.None? {
        return Fail(MissingElement(CareerAnchor));
      }
      if entries == [] {
        return Fail(EmptyAccumulator);
      }
      entries := [entries[0][PopularCareers := TextList(names.value)]] + entries[1..];
      outcome := Pass;
    }
  }
}
