/** What the overview, interview and career extraction promise, stated over the functions of
    `Records` and proved for all inputs. */
module Properties {
  import opened PyStr
  import opened Records

  // ---------------------------------------------------------------------------------------------
  // The header of a container

  /** The header yields at most the name and the rating, each present exactly when its node is,
      each the stripped text of that node. */
  lemma HeaderFieldsSpec(header: Option<Header>)
    ensures var r := HeaderFields(header);
            && r.Keys <= {CompanyName, CompanyRating}
            && (CompanyName in r <==> header.Some? && header.value.heading.Some?)
            && (CompanyRating in r <==> header.Some? && header.value.rating.Some?)
            && (CompanyName in r ==> r[CompanyName] == Text(Strip(header.value.heading.value)))
            && (CompanyRating in r ==> r[CompanyRating] == Text(Strip(header.value.rating.value)))
  {
  }

  // ---------------------------------------------------------------------------------------------
  // One detail line

  /** The separator a key/value line is split on: ":" for the colon rule, "in" for the " in " rule
      (the test is for " in ", the split is on every "in"). */
  function SeparatorOf(rule: Rule): string {
    if rule == KeyColon then ":" else "in"
  }

  /** A detail line fails exactly when it is a colon line with other than one ':' or an " in "
      line in which "in" does not occur exactly once; the other rules never fail. A failure is
      the unpack error of that line. */
  lemma LineEffectOkIff(detail: string, index: nat)
    ensures LineEffect(detail, index).Ok? <==>
              && (RuleOf(detail, index) == KeyColon ==> multiset(detail)[':'] == 1)
              && (RuleOf(detail, index) == KeyIn ==> OccursOnce(detail, "in"))
    ensures LineEffect(detail, index).Err? ==> LineEffect(detail, index).error == UnpackError(detail)
  {
    SplitCharCount(detail, ':');
    UnpackIffOccursOnce(detail, "in");
  }

  /** A key/value line `k <sep> v` with no other separator stores `k.strip() -> v.strip()`. */
  lemma KeyValueLineEntry(detail: string, index: nat, k: string, v: string)
    requires IsKeyValueRule(RuleOf(detail, index))
    requires var sep := SeparatorOf(RuleOf(detail, index));
             detail == k + sep + v && !Contains(k, sep) && !Contains(v, sep)
    ensures LineEffect(detail, index) == Ok(Effect(Some((Strip(k), Text(Strip(v)))), Text(detail)))
  {
    SplitTwoIff(detail, SeparatorOf(RuleOf(detail, index)), k, v);
  }

  /** A Locations or Employees line stores, under Branches or Size, the text before its first
      space: a prefix of the line with no space in it, followed by a space or by the end. */
  lemma CountLineEntry(detail: string, index: nat)
    requires RuleOf(detail, index) == LocationsCount || RuleOf(detail, index) == EmployeesCount
    ensures var effect := LineEffect(detail, index);
            && effect.Ok? && effect.value.write.Some?
            && effect.value.write.value.0 == (if RuleOf(detail, index) == LocationsCount then Branches else Size)
            && effect.value.write.value.1.Text?
            && var token := effect.value.write.value.1.text;
               && token == detail[..|token|]
               && !Contains(token, " ")
               && (|token| == |detail| || detail[|token|] == ' ')
  {
    SplitHead(detail, " ");
    var token := Split(detail, " ")[0];
    if |token| < |detail| {
      assert detail[|token|..|token| + 1] == " ";
    }
  }

  /** A line that passes the " in " test and holds "in" at a second place, inside a word, fails
      the unpack, because the split is on every "in", not on " in ". */
  lemma InsideWordInFails(detail: string, index: nat, a: int, b: int)
    requires RuleOf(detail, index) == KeyIn
    requires OccursAt(detail, "in", a) && OccursAt(detail, "in", b) && a != b
    ensures LineEffect(detail, index) == Err(UnpackError(detail))
  {
    UnpackIffOccursOnce(detail, "in");
  }

  /** A job title such as "Engineering in X" is such a line. The line is a parameter fixed by the
      precondition rather than a literal in the body, so that the verifier does not evaluate the
      string functions on the literal all the way down. */
  lemma EngineeringInXFails(detail: string, index: nat)
    requires detail == "Engineering in X"
    ensures LineEffect(detail, index) == Err(UnpackError(detail))
  {
    assert !Contains(detail, ":") by {
      forall j | 0 <= j < |detail| ensures !OccursAt(detail, ":", j) {
        assert detail[j] != ':';
        assert detail[j..j + 1] == [detail[j]];
      }
    }
    assert detail[11..15] == " in ";
    assert OccursAt(detail, " in ", 11);
    assert detail[3..5] == "in" && detail[8..10] == "in";
    InsideWordInFails(detail, index, 3, 8);
  }

  // ---------------------------------------------------------------------------------------------
  // The detail loop

  /** The loop completes exactly when every line from `index` on unpacks. */
  lemma {:induction false} DetailsOkIff(info: Fields, details: seq<string>, index: nat)
    requires index <= |details|
    ensures ApplyDetails(info, details, index).Ok? <==>
              forall j :: index <= j < |details| ==> LineEffect(details[j], j).Ok?
    decreases |details| - index
  {
    if index < |details| {
      if LineEffect(details[index], index).Ok? {
        var next := ApplyLine(info, details[index], index, index == |details| - 1).value;
        assert ApplyDetails(info, details, index) == ApplyDetails(next, details, index + 1);
        DetailsOkIff(next, details, index + 1);
      }
    }
  }

  /** When it does not complete, the loop stops with the unpack error of the first line that
      does not unpack. */
  lemma {:induction false} DetailsFirstError(info: Fields, details: seq<string>, index: nat)
    requires index <= |details|
    requires ApplyDetails(info, details, index).Err?
    ensures exists j :: && index <= j < |details|
                        && LineEffect(details[j], j).Err?
                        && ApplyDetails(info, details, index).error == UnpackError(details[j])
                        && forall i :: index <= i < j ==> LineEffect(details[i], i).Ok?
    decreases |details| - index
  {
    LineEffectOkIff(details[index], index);
    if LineEffect(details[index], index).Ok? {
      var next := ApplyLine(info, details[index], index, index == |details| - 1).value;
      assert ApplyDetails(info, details, index) == ApplyDetails(next, details, index + 1);
      DetailsFirstError(next, details, index + 1);
    } else {
      assert ApplyDetails(info, details, index).error == UnpackError(details[index]);
    }
  }

  /** After a non-empty detail list, Industry holds what `detail` held after the last line: the
      list of its space-separated tokens when the last line took the Locations or Employees
      branch, which rebinds `detail`, and the stripped line otherwise, whatever that line or any
      other wrote through its own branch. */
  lemma {:induction false} IndustryFromLastLine(info: Fields, details: seq<string>, index: nat)
    requires index < |details|
    requires ApplyDetails(info, details, index).Ok?
    ensures var n := |details| - 1;
            var rule := RuleOf(details[n], n);
            && LineEffect(details[n], n).Ok?
            && Industry in ApplyDetails(info, details, index).value
            && ApplyDetails(info, details, index).value[Industry] ==
                 if rule == LocationsCount || rule == EmployeesCount then TextList(Split(details[n], " "))
                 else Text(details[n])
    decreases |details| - index
  {
    var next := ApplyLine(info, details[index], index, index == |details| - 1).value;
    assert ApplyDetails(info, details, index) == ApplyDetails(next, details, index + 1);
    if index < |details| - 1 {
      IndustryFromLastLine(next, details, index + 1);
    }
  }

  function Lookup(fields: Fields, key: string): Option<Value> {
    if key in fields then Some(fields[key]) else None
  }

  /** An independent reading of the loop for one key other than Industry: scan back from line
      `hi - 1` to line `lo` for the last line whose branch writes `key`; if none does, the key
      keeps its value in `base`. */
  function LastWrite(base: Fields, details: seq<string>, key: string, lo: nat, hi: nat): Option<Value>
    requires lo <= hi <= |details|
    decreases hi - lo
  {
    if hi == lo then Lookup(base, key)
    else Overwrite(LineEffect(details[hi - 1], hi - 1), key, LastWrite(base, details, key, lo, hi - 1))
  }

  /** `key`'s value after a line with outcome `effect`, given its value `before`. */
  function Overwrite(effect: Result<Effect>, key: string, before: Option<Value>): Option<Value> {
    match effect
    case Ok(Effect(Some((k, v)), _)) => if k == key then Some(v) else before
    case _ => before
  }

  lemma {:induction false} LastWriteShift(base: Fields, next: Fields, details: seq<string>, key: string, lo: nat, hi: nat)
    requires lo < hi <= |details|
    requires Lookup(next, key) == LastWrite(base, details, key, lo, lo + 1)
    ensures LastWrite(next, details, key, lo + 1, hi) == LastWrite(base, details, key, lo, hi)
    decreases hi
  {
    if hi > lo + 1 {
      LastWriteShift(base, next, details, key, lo, hi - 1);
    }
  }

  /** Later lines overwrite earlier ones: every key but Industry ends with the value the last line
      that writes it gave it, or keeps the value it came in with. */
  lemma {:induction false} LastWriteWins(info: Fields, details: seq<string>, index: nat, key: string)
    requires index <= |details| && key != Industry
    requires ApplyDetails(info, details, index).Ok?
    ensures Lookup(ApplyDetails(info, details, index).value, key) == LastWrite(info, details, key, index, |details|)
    decreases |details| - index
  {
    if index < |details| {
      var next := ApplyLine(info, details[index], index, index == |details| - 1).value;
      assert ApplyDetails(info, details, index) == ApplyDetails(next, details, index + 1);
      LastWriteWins(next, details, index + 1, key);
      LastWriteShift(info, next, details, key, index, |details|);
    }
  }

  /** The line writes `key` through its own branch. */
  predicate WritesKey(detail: string, index: nat, key: string) {
    var effect := LineEffect(detail, index);
    effect.Ok? && effect.value.write.Some? && effect.value.write.value.0 == key
  }

  lemma {:induction false} UrlLastWrite(header: Fields, details: seq<string>, hi: nat)
    requires 0 < hi <= |details| && Url !in header
    requires forall j :: 0 <= j < |details| && IsKeyValueRule(RuleOf(details[j], j)) ==> !WritesKey(details[j], j, Url)
    ensures LastWrite(header, details, Url, 0, hi) ==
              if RuleOf(details[0], 0) == FirstLineUrl then Some(Text(details[0])) else None
  {
    if hi > 1 {
      UrlLastWrite(header, details, hi - 1);
      assert !WritesKey(details[hi - 1], hi - 1, Url);
    }
  }

  /** When the header has no URL and no key/value line names URL, the record has a URL exactly
      when the first line passed none of the colon, " in ", Locations and Employees tests, and
      then the URL is that stripped line. */
  lemma UrlOnlyFromUnmatchedFirstLine(header: Fields, details: seq<string>)
    requires Url !in header
    requires forall j :: 0 <= j < |details| && IsKeyValueRule(RuleOf(details[j], j)) ==> !WritesKey(details[j], j, Url)
    requires ApplyDetails(header, details, 0).Ok?
    ensures var record := ApplyDetails(header, details, 0).value;
            && (Url in record <==> |details| > 0 && RuleOf(details[0], 0) == FirstLineUrl)
            && (Url in record ==> record[Url] == Text(details[0]))
  {
    LastWriteWins(header, details, 0, Url);
    if |details| > 0 {
      UrlLastWrite(header, details, |details|);
    }
  }

  // ---------------------------------------------------------------------------------------------
  // The container loop

  /** The container loop keeps at most one record per container. */
  lemma {:induction false} CollectBound(results: seq<Result<Fields>>, from: nat)
    requires from <= |results|
    ensures from + |Collect(results, from).records| <= |results|
    decreases |results| - from
  {
    if from < |results| && results[from].Ok? {
      CollectBound(results, from + 1);
    }
  }

  /** The record the container loop keeps at position `k` is the record of container `k`. */
  lemma {:induction false} CollectRecordAt(results: seq<Result<Fields>>, from: nat, k: nat)
    requires from <= k < |results| && k - from < |Collect(results, from).records|
    ensures results[k] == Ok(Collect(results, from).records[k - from])
    decreases k - from
  {
    if k > from {
      CollectRecordAt(results, from + 1, k);
    }
  }

  /** The container loop completes exactly when every container succeeds, and otherwise reports
      the error of the first container that fails, the one after the records it kept. */
  lemma {:induction false} CollectOutcome(results: seq<Result<Fields>>, from: nat)
    requires from <= |results|
    ensures var batch := Collect(results, from);
            && (batch.outcome.Pass? <==> from + |batch.records| == |results|)
            && (batch.outcome.Fail? ==>
                  from + |batch.records| < |results| &&
                  results[from + |batch.records|] == Err(batch.outcome.error))
    decreases |results| - from
  {
    if from < |results| && results[from].Ok? {
      CollectOutcome(results, from + 1);
    }
  }

  /** Where the container loop stands after `i` containers that succeeded: container `i`'s own
      outcome says whether the loop ends there or keeps its record as the next one. */
  lemma CollectAt(results: seq<Result<Fields>>, i: nat)
    requires i < |results| && i <= |Collect(results, 0).records|
    ensures var batch := Collect(results, 0);
            && (results[i].Err? ==> |batch.records| == i && batch.outcome == Fail(results[i].error))
            && (results[i].Ok? ==> i < |batch.records| && batch.records[i] == results[i].value)
  {
    CollectOutcome(results, 0);
    CollectBound(results, 0);
    if i < |Collect(results, 0).records| {
      CollectRecordAt(results, 0, i);
    }
  }

  /** After every container succeeded, the container loop has completed with one record each. */
  lemma CollectDone(results: seq<Result<Fields>>)
    requires |results| <= |Collect(results, 0).records|
    ensures Collect(results, 0).outcome == Pass && |Collect(results, 0).records| == |results|
  {
    CollectBound(results, 0);
    CollectOutcome(results, 0);
  }

  /** The container loop keeps the records of the leading containers that succeed, in order, one
      per container; it completes exactly when every container succeeds, and otherwise reports the
      error of the first container that fails. */
  lemma OverviewsSpec(containers: seq<Container>)
    ensures var batch := Overviews(containers);
            && |batch.records| <= |containers|
            && (forall k :: 0 <= k < |batch.records| ==> Overview(containers[k]) == Ok(batch.records[k]))
            && (batch.outcome.Pass? <==> |batch.records| == |containers|)
            && (batch.outcome.Fail? ==>
                  |batch.records| < |containers| &&
                  Overview(containers[|batch.records|]) == Err(batch.outcome.error))
  {
    var results := Readings(containers);
    CollectBound(results, 0);
    CollectOutcome(results, 0);
    forall k | 0 <= k < |Collect(results, 0).records|
      ensures Overview(containers[k]) == Ok(Collect(results, 0).records[k])
    {
      CollectRecordAt(results, 0, k);
    }
  }

  // ---------------------------------------------------------------------------------------------
  // Interview routing

  /** Every pair goes to exactly one of the two lists: their lengths add up and together they hold
      the input's pairs, each as often as the input does. */
  lemma {:induction false} RoutePartition(pairs: seq<Pair>)
    ensures |Routed(pairs, true)| + |Routed(pairs, false)| == |pairs|
    ensures multiset(Routed(pairs, true)) + multiset(Routed(pairs, false)) == multiset(pairs)
  {
    if pairs != [] {
      var init := pairs[..|pairs| - 1];
      var last := pairs[|pairs| - 1];
      RoutePartition(init);
      assert pairs == init + [last];
      assert multiset(pairs) == multiset(init) + multiset{last};
      if IsSentiment(last.0) {
        assert Routed(pairs, true) == Routed(init, true) + [last];
        assert Routed(pairs, false) == Routed(init, false);
      } else {
        assert Routed(pairs, true) == Routed(init, true);
        assert Routed(pairs, false) == Routed(init, false) + [last];
      }
    }
  }

  /** A pair is in the experience list exactly when it is an input pair with a sentiment label, and
      in the getting-an-interview list exactly when it is one with any other label. */
  lemma {:induction false} RoutedMembership(pairs: seq<Pair>, toExperience: bool, p: Pair)
    ensures p in Routed(pairs, toExperience) <==> p in pairs && IsSentiment(p.0) == toExperience
  {
    if pairs != [] {
      var init := pairs[..|pairs| - 1];
      RoutedMembership(init, toExperience, p);
      assert pairs == init + [pairs[|pairs| - 1]];
    }
  }

  /** Routing keeps the input order: routing two runs of pairs one after the other gives the two
      routed runs one after the other. In particular routing the sub-blocks of the statistics
      section one by one, as the nested loops do, equals routing their concatenation. */
  lemma {:induction false} RoutedConcat(first: seq<Pair>, second: seq<Pair>, toExperience: bool)
    ensures Routed(first + second, toExperience) == Routed(first, toExperience) + Routed(second, toExperience)
    decreases |second|
  {
    if second == [] {
      assert first + second == first;
    } else {
      var init := second[..|second| - 1];
      RoutedConcat(first, init, toExperience);
      assert (first + second)[..|first + second| - 1] == first + init;
    }
  }
}
