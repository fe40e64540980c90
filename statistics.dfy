/** The statistics report over the filtered listing (obter_estatisticas):
    per-field answer counts (contar_respostas), the known ages, and the
    "no results" outcome. */
module Statistics {
  import opened Sheet
  import opened Evaluations
  import opened Counting

  const NoResultsMessage: string := "Nenhuma avaliação encontrada com os filtros selecionados"

  /** The values of field `f`, one per evaluation, in order. */
  function FieldValues(evals: seq<Evaluation>, f: Field): (vs: seq<Cell>)
    ensures |vs| == |evals|
  {
    if evals == [] then [] else [Get(evals[0], f)] + FieldValues(evals[1..], f)
  }

  /** The truthy values of field `f`, in order (the list comprehension of contar_respostas). */
  function Responses(evals: seq<Evaluation>, f: Field): seq<Cell>
  {
    if evals == [] then []
    else
      var v := Get(evals[0], f);
      (if Truthy(v) then [v] else []) + Responses(evals[1..], f)
  }

  /** Number of evaluations that answered field `f` (its value is truthy). */
  function Answered(evals: seq<Evaluation>, f: Field): nat
  {
    if evals == [] then 0
    else (if Truthy(Get(evals[0], f)) then 1 else 0) + Answered(evals[1..], f)
  }

  /** One response per evaluation that answered the field. */
  lemma {:induction false} ResponsesLength(evals: seq<Evaluation>, f: Field)
    ensures |Responses(evals, f)| == Answered(evals, f) <= |evals|
  {
    if evals != [] {
      ResponsesLength(evals[1..], f);
    }
  }

  /** The responses are exactly the truthy values of the field, each with its multiplicity. */
  lemma {:induction false} ResponsesMultiset(evals: seq<Evaluation>, f: Field)
    ensures forall v :: multiset(Responses(evals, f))[v] == if Truthy(v) then multiset(FieldValues(evals, f))[v] else 0
  {
    if evals != [] {
      var v0 := Get(evals[0], f);
      var head: seq<Cell> := if Truthy(v0) then [v0] else [];
      var rest := evals[1..];
      ResponsesMultiset(rest, f);
      assert multiset(Responses(evals, f)) == multiset(head) + multiset(Responses(rest, f));
      assert multiset(FieldValues(evals, f)) == multiset{v0} + multiset(FieldValues(rest, f));
    }
  }

  /** `contar_respostas(campo)`. */
  function CountAnswers(evals: seq<Evaluation>, f: Field): Counts
  {
    Tally(Responses(evals, f))
  }

  /** The frequency table of a field has one entry per distinct truthy value
      of that field, each counted with its number of occurrences; falsy
      values are not counted, and the counts add up to the number of
      evaluations that answered, which is at most the number listed. */
  lemma CountAnswersSpec(evals: seq<Evaluation>, f: Field)
    ensures DistinctKeys(CountAnswers(evals, f))
    ensures forall v :: v in Keys(CountAnswers(evals, f)) <==> Truthy(v) && v in FieldValues(evals, f)
    ensures forall v :: CountOf(CountAnswers(evals, f), v) == if Truthy(v) then multiset(FieldValues(evals, f))[v] else 0
    ensures Total(CountAnswers(evals, f)) == Answered(evals, f) <= |evals|
  {
    ResponsesLength(evals, f);
    ResponsesMultiset(evals, f);
    var vs := FieldValues(evals, f);
    forall v
      ensures v in Keys(CountAnswers(evals, f)) <==> Truthy(v) && v in vs
    {
      assert v in Responses(evals, f) <==> multiset(Responses(evals, f))[v] > 0;
      assert v in vs <==> multiset(vs)[v] > 0;
    }
  }

  /** The known ages of the evaluations, in order (the `idades` list). */
  function Ages(evals: seq<Evaluation>): seq<int>
  {
    if evals == [] then []
    else
      var last := evals[|evals| - 1];
      Ages(evals[..|evals| - 1]) + (if last.age.Some? then [last.age.value] else [])
  }

  /** `Ages` picks, in order, exactly the evaluations whose age is known:
      `idx` names them. */
  lemma {:induction false} AgesOrigin(evals: seq<Evaluation>) returns (idx: seq<nat>)
    ensures |idx| == |Ages(evals)| <= |evals|
    ensures forall j, k :: 0 <= j < k < |idx| ==> idx[j] < idx[k]
    ensures forall k :: 0 <= k < |idx| ==> idx[k] < |evals| && evals[idx[k]].age == Some(Ages(evals)[k])
    ensures forall i :: 0 <= i < |evals| && evals[i].age.Some? ==> i in idx
  {
    if evals == [] {
      idx := [];
    } else {
      var init := evals[..|evals| - 1];
      var prev := AgesOrigin(init);
      assert forall i :: 0 <= i < |init| ==> init[i] == evals[i];
      if evals[|evals| - 1].age.Some? {
        idx := prev + [|evals| - 1];
      } else {
        idx := prev;
      }
    }
  }

  /** When an age bound is given, every listed evaluation has a known age,
      so `idades` has one entry per listed evaluation, each within the bounds. */
  lemma {:induction false} AgesWithinBounds(rows: seq<Row>, c: Criteria, today: Date)
    requires AllWide(rows, Width)
    ensures GivenBound(c.ageMin) || GivenBound(c.ageMax) ==> |Ages(Listing(rows, c, today))| == |Listing(rows, c, today)|
    ensures forall x :: x in Ages(Listing(rows, c, today)) ==>
              (GivenBound(c.ageMin) ==> x >= c.ageMin.value) && (GivenBound(c.ageMax) ==> x <= c.ageMax.value)
  {
    var evals := Listing(rows, c, today);
    ListedMeetCriteria(rows, c, today);
    var idx := AgesOrigin(evals);
    forall x | x in Ages(evals)
      ensures (GivenBound(c.ageMin) ==> x >= c.ageMin.value) && (GivenBound(c.ageMax) ==> x <= c.ageMax.value)
    {
      var k :| 0 <= k < |Ages(evals)| && Ages(evals)[k] == x;
      assert evals[idx[k]] in evals;
    }
    if GivenBound(c.ageMin) || GivenBound(c.ageMax) {
      AllKnownAges(evals);
    }
  }

  /** When every evaluation has a known age, `Ages` drops none of them. */
  lemma {:induction false} AllKnownAges(evals: seq<Evaluation>)
    requires forall e :: e in evals ==> e.age.Some?
    ensures |Ages(evals)| == |evals|
  {
    if evals != [] {
      AllKnownAges(evals[..|evals| - 1]);
    }
  }

  datatype Demography = Demography(gender: Counts, schoolYear: Counts, intendedUniversity: Counts, ages: seq<int>)
  datatype Ratings = Ratings(explanations: Counts, applications: Counts, technologies: Counts, understanding: Counts, overall: Counts)
  datatype Interests = Interests(technology: Counts, challenges: Counts, math: Counts, portuguese: Counts, favouriteSubject: Counts)
  datatype Devices = Devices(videogame: Counts, computer: Counts, internet: Counts, phone: Counts, mobileInternet: Counts)
  datatype TechProfile = TechProfile(shiftPreference: Counts, programmingContact: Counts, likesGames: Counts, devices: Devices)

  /** The answer to a statistics request. */
  datatype Outcome =
    | NoResults(message: string)
    | Report(totalParticipants: nat, filters: Criteria, demography: Demography,
             ratings: Ratings, interests: Interests, techProfile: TechProfile)

  /** Where in the report the table of each categorical field appears. */
  function Section(r: Outcome, f: Field): Counts
    requires r.Report?
  {
    match f
    case Gender => r.demography.gender
    case SchoolYear => r.demography.schoolYear
    case IntendedUniversity => r.demography.intendedUniversity
    case RatingExplanations => r.ratings.explanations
    case RatingApplications => r.ratings.applications
    case RatingTechnologies => r.ratings.technologies
    case RatingUnderstanding => r.ratings.understanding
    case RatingOverall => r.ratings.overall
    case InterestTechnology => r.interests.technology
    case InterestChallenges => r.interests.challenges
    case InterestMath => r.interests.math
    case InterestPortuguese => r.interests.portuguese
    case FavouriteSubject => r.interests.favouriteSubject
    case ShiftPreference => r.techProfile.shiftPreference
    case ProgrammingContact => r.techProfile.programmingContact
    case LikesGames => r.techProfile.likesGames
    case OwnsVideogame => r.techProfile.devices.videogame
    case OwnsComputer => r.techProfile.devices.computer
    case OwnsInternet => r.techProfile.devices.internet
    case OwnsPhone => r.techProfile.devices.phone
    case OwnsMobileInternet => r.techProfile.devices.mobileInternet
  }

  /** The report assembled from a non-empty listing. */
  function BuildReport(evals: seq<Evaluation>, c: Criteria): Outcome
  {
    Report(
      totalParticipants := |evals|,
      filters := c,
      demography := Demography(
        CountAnswers(evals, Gender), CountAnswers(evals, SchoolYear),
        CountAnswers(evals, IntendedUniversity), Ages(evals)),
      ratings := Ratings(
        CountAnswers(evals, RatingExplanations), CountAnswers(evals, RatingApplications),
        CountAnswers(evals, RatingTechnologies), CountAnswers(evals, RatingUnderstanding),
        CountAnswers(evals, RatingOverall)),
      interests := Interests(
        CountAnswers(evals, InterestTechnology), CountAnswers(evals, InterestChallenges),
        CountAnswers(evals, InterestMath), CountAnswers(evals, InterestPortuguese),
        CountAnswers(evals, FavouriteSubject)),
      techProfile := TechProfile(
        CountAnswers(evals, ShiftPreference), CountAnswers(evals, ProgrammingContact),
        CountAnswers(evals, LikesGames),
        Devices(
          CountAnswers(evals, OwnsVideogame), CountAnswers(evals, OwnsComputer),
          CountAnswers(evals, OwnsInternet), CountAnswers(evals, OwnsPhone),
          CountAnswers(evals, OwnsMobileInternet))))
  }

  /** A statistics request: list with the same criteria; an empty listing
      gives the "no results" message, otherwise the report over the listing. */
  method ComputeStatistics(sheet: seq<Row>, c: Criteria, today: Date) returns (out: Outcome)
    requires AllWide(DataRows(sheet), Width)
    ensures out.NoResults? <==> Listing(DataRows(sheet), c, today) == []
    ensures out.NoResults? ==> out.message == NoResultsMessage
    ensures out.Report? ==>
              && out.totalParticipants == |Listing(DataRows(sheet), c, today)|
              && out.filters == c
              && out.demography.ages == Ages(Listing(DataRows(sheet), c, today))
              && (forall f :: Section(out, f) == CountAnswers(Listing(DataRows(sheet), c, today), f))
              && (forall f :: Total(Section(out, f)) <= out.totalParticipants)
  {
    var evals := ListEvaluations(sheet, c, today);
    if evals == [] {
      return NoResults(NoResultsMessage);
    }
    out := BuildReport(evals, c);
    ReportSections(evals, c);
  }

  /** Each section of the report is the frequency table of its field, and
      none counts more answers than there are participants. */
  lemma ReportSections(evals: seq<Evaluation>, c: Criteria)
    ensures forall f :: Section(BuildReport(evals, c), f) == CountAnswers(evals, f)
    ensures forall f :: Total(Section(BuildReport(evals, c), f)) <= |evals|
  {
    var r := BuildReport(evals, c);
    forall f
      ensures Section(r, f) == CountAnswers(evals, f)
      ensures Total(Section(r, f)) <= |evals|
    {
      CountAnswersSpec(evals, f);
      match f
      case Gender =>
      case SchoolYear =>
      case IntendedUniversity =>
      case RatingExplanations =>
      case RatingApplications =>
      case RatingTechnologies =>
      case RatingUnderstanding =>
      case RatingOverall =>
      case InterestTechnology =>
      case InterestChallenges =>
      case InterestMath =>
      case InterestPortuguese =>
      case FavouriteSubject =>
      case ShiftPreference =>
      case ProgrammingContact =>
      case LikesGames =>
      case OwnsVideogame =>
      case OwnsComputer =>
      case OwnsInternet =>
      case OwnsPhone =>
      case OwnsMobileInternet =>
    }
  }
}
