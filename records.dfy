/** The field map the scraper builds for one company page, the page landmarks it reads (given
    here as plain inputs instead of parsed HTML), and the functions that specify what each step of
    the extraction computes. */
module Records {
  import opened PyStr

  /** A field value: a stripped text, a list of texts, or a list of (label, percentage) pairs. */
  datatype Value =
    | Text(text: string)
    | TextList(items: seq<string>)
    | PairList(pairs: seq<Pair>)

  type Pair = (string, string)

  /** One company record, keyed by column name. */
  type Fields = map<string, Value>

  /** The Python exceptions the extraction can raise. */
  datatype ScrapeError =
    | UnpackError(line: string)        // ValueError: `key, value = ...split(...)` got other than two parts
    | MissingElement(landmark: string) // AttributeError: a lookup returned None and was dereferenced
    | EmptyAccumulator                 // IndexError: `information_list[0]` on an empty list

  datatype Result<+T> = Ok(value: T) | Err(error: ScrapeError)

  datatype Outcome = Pass | Fail(error: ScrapeError)

  /** The header of an overview container: its heading (company name) and rating nodes, if present. */
  datatype Header = Header(heading: Option<string>, rating: Option<string>)

  /** One overview container: its header, if present, and the raw texts of the `<li>` items of
      its details list, if the list is present. */
  datatype Container = Container(header: Option<Header>, details: Option<seq<string>>)

  const CompanyName := "Company Name"
  const CompanyRating := "Company Rating"
  const Url := "URL"
  const Branches := "Branches"
  const Size := "Size"
  const Industry := "Industry"
  const Difficulty := "Difficulty"
  const Experience := "Experience"
  const Interview := "Interview"
  const PopularCareers := "Popular Careers"

  const InterviewStatsLandmark := "interviewStatsContainer"
  const DifficultyLandmark := "interviewDifficultyContainer"
  const CareerAnchor := "a"

  // ---------------------------------------------------------------------------------------------
  // Overview containers

  /** The fields taken from a container's header: the heading and the rating, each stripped, each
      present exactly when its node is. */
  function HeaderFields(header: Option<Header>): (r: Fields)
  {
    match header
    case None => map[]
    case Some(Header(heading, rating)) =>
      var named: Fields := if heading.Some? then map[CompanyName := Text(Strip(heading.value))] else map[];
      if rating.Some? then named[CompanyRating := Text(Strip(rating.value))] else named
  }

  /** Which branch of the if/elif chain a stripped detail line takes. */
  datatype Rule = KeyColon | KeyIn | LocationsCount | EmployeesCount | FirstLineUrl | Unmatched

  /** The tests in the order the source tries them; the first that holds decides. */
  function RuleOf(detail: string, index: nat): Rule {
    if Contains(detail, ":") then KeyColon
    else if Contains(detail, " in ") then KeyIn
    else if Contains(detail, "Locations") then LocationsCount
    else if Contains(detail, "Employees") then EmployeesCount
    else if index == 0 then FirstLineUrl
    else Unmatched
  }

  predicate IsKeyValueRule(rule: Rule) {
    rule == KeyColon || rule == KeyIn
  }

  /** `key, value = detail.split(sep)`, then `key.strip() -> value.strip()`. */
  function SplitKeyValue(detail: string, sep: string): Result<(string, Value)>
    requires |sep| > 0
  {
    var parts := Split(detail, sep);
    if |parts| == 2 then Ok((Strip(parts[0]), Text(Strip(parts[1])))) else Err(UnpackError(detail))
  }

  /** What one stripped detail line does: the entry its branch stores, if any, and what the
      variable `detail` holds after the branch (the line, or its space-split tokens after the
      Locations and Employees branches), which the Industry rule reads on the last line. */
  datatype Effect = Effect(write: Option<(string, Value)>, rebound: Value)

  /** The branch of the if/elif chain a line takes, and what it does; the error of a failed unpack.
      A line's effect depends on the line and its position only, not on the fields so far. */
  function LineEffect(detail: string, index: nat): Result<Effect> {
    match RuleOf(detail, index)
    case KeyColon =>
      (match SplitKeyValue(detail, ":") case Ok(kv) => Ok(Effect(Some(kv), Text(detail))) case Err(e) => Err(e))
    case KeyIn =>
      (match SplitKeyValue(detail, "in") case Ok(kv) => Ok(Effect(Some(kv), Text(detail))) case Err(e) => Err(e))
    case LocationsCount =>
      var tokens := Split(detail, " ");
      Ok(Effect(Some((Branches, Text(tokens[0]))), TextList(tokens)))
    case EmployeesCount =>
      var tokens := Split(detail, " ");
      Ok(Effect(Some((Size, Text(tokens[0]))), TextList(tokens)))
    case FirstLineUrl => Ok(Effect(Some((Url, Text(detail))), Text(detail)))
    case Unmatched => Ok(Effect(None, Text(detail)))
  }

  /** Stores a line's entry and, on the last line, `Industry` from what `detail` then holds. */
  function ApplyEffect(info: Fields, effect: Effect, last: bool): Fields {
    var written := if effect.write.Some? then info[effect.write.value.0 := effect.write.value.1] else info;
    if last then written[Industry := effect.rebound] else written
  }

  /** One pass of the detail loop over a stripped line. */
  function ApplyLine(info: Fields, detail: string, index: nat, last: bool): Result<Fields> {
    match LineEffect(detail, index)
    case Err(e) => Err(e)
    case Ok(effect) => Ok(ApplyEffect(info, effect, last))
  }

  /** The detail loop from line `index` on, over the stripped `<li>` texts, starting from the
      fields `info`; an unpack error aborts it. */
  function ApplyDetails(info: Fields, details: seq<string>, index: nat): Result<Fields>
    requires index <= |details|
    decreases |details| - index, 1
  {
    if index == |details| then Ok(info) else ApplyPass(info, details, index)
  }

  /** Pass `index` of the detail loop, then the passes after it. */
  function ApplyPass(info: Fields, details: seq<string>, index: nat): Result<Fields>
    requires index < |details|
    decreases |details| - index, 0
  {
    match ApplyLine(info, details[index], index, index == |details| - 1)
    case Err(e) => Err(e)
    case Ok(next) => ApplyDetails(next, details, index + 1)
  }

  /** `str(detail.text).strip()` for each `<li>` text, in order. */
  function StripAll(lines: seq<string>): (details: seq<string>)
    ensures |details| == |lines|
    ensures forall k :: 0 <= k < |lines| ==> details[k] == Strip(lines[k])
  {
    if lines == [] then [] else [Strip(lines[0])] + StripAll(lines[1..])
  }

  /** The `<li>` texts of a container; a missing details list behaves as an empty one. */
  function DetailLines(c: Container): seq<string> {
    if c.details.Some? then c.details.value else []
  }

  /** The record one overview container yields, or the error that aborts it. */
  function Overview(c: Container): Result<Fields> {
    ApplyDetails(HeaderFields(c.header), StripAll(DetailLines(c)), 0)
  }

  /** What the container loop leaves behind: the records of the leading containers that succeed,
      in order, and the error of the first container that fails, if one does. */
  datatype Batch = Batch(records: seq<Fields>, outcome: Outcome)

  /** The outcome of each container, in order. */
  function Readings(containers: seq<Container>): seq<Result<Fields>> {
    seq(|containers|, k requires 0 <= k < |containers| => Overview(containers[k]))
  }

  /** The container loop's control over the outcomes `results` of the containers, from container
      `from` on: each record is appended, and the first error ends the loop. */
  function Collect(results: seq<Result<Fields>>, from: nat): Batch
    requires from <= |results|
    decreases |results| - from
  {
    if from == |results| then Batch([], Pass)
    else
      match results[from]
      case Err(e) => Batch([], Fail(e))
      case Ok(record) =>
        var rest := Collect(results, from + 1);
        Batch([record] + rest.records, rest.outcome)
  }

  /** The container loop over `containers`, in order, stopping at the first failure. */
  function Overviews(containers: seq<Container>): Batch {
    Collect(Readings(containers), 0)
  }

  // ---------------------------------------------------------------------------------------------
  // Interview statistics

  /** The labels that go to the experience list. */
  predicate IsSentiment(text: string) {
    text == "Positive" || text == "Negative" || text == "Neutral"
  }

  /** The pairs whose label is a sentiment (`toExperience`) or is not one, in their input order. */
  function Routed(pairs: seq<Pair>, toExperience: bool): seq<Pair> {
    if pairs == [] then []
    else
      var last := pairs[|pairs| - 1];
      Routed(pairs[..|pairs| - 1], toExperience) + (if IsSentiment(last.0) == toExperience then [last] else [])
  }

  /** The three entries `extract_interviews` merges into the first record. */
  function InterviewFields(stats: seq<Pair>, difficulty: string): Fields {
    map[Difficulty := Text(Strip(difficulty)),
        Experience := PairList(Routed(stats, true)),
        Interview := PairList(Routed(stats, false))]
  }

  // ---------------------------------------------------------------------------------------------
  // Popular careers

  /** The anchor text of each career entry, in order; None when some entry has no anchor. */
  function CareerNames(links: seq<Option<string>>): (r: Option<seq<string>>)
    ensures r.Some? <==> forall k :: 0 <= k < |links| ==> links[k].Some?
    ensures r.Some? ==> |r.value| == |links| && forall k :: 0 <= k < |links| ==> links[k] == Some(r.value[k])
  {
    if links == [] then Some([])
    else
      match (links[0], CareerNames(links[1..]))
      case (Some(name), Some(rest)) => Some([name] + rest)
      case _ => None
  }
}
