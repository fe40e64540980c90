/** Normalisation of worksheet rows into evaluation records and the filtered
    listing of those records (listar_avaliacoes). */
module Evaluations {
  import opened Sheet
  import opened Age

  /** A row must reach column 28, the last one the listing reads. */
  const Width: nat := 29

  /** The placeholder shown for a respondent without a name. */
  const Anonymous: string := "Anônimo"

  /** One listed evaluation.  Every field but `age` comes from a fixed column of the row. */
  datatype Evaluation = Evaluation(
    id: Cell,
    completedAt: Cell,
    name: Cell,
    birthDate: Cell,
    age: Option<int>,
    gender: Cell,
    schoolYear: Cell,
    intendedUniversity: Cell,
    ratingExplanations: Cell,
    ratingApplications: Cell,
    ratingTechnologies: Cell,
    ratingUnderstanding: Cell,
    ratingOverall: Cell,
    interestTechnology: Cell,
    interestChallenges: Cell,
    interestMath: Cell,
    interestPortuguese: Cell,
    favouriteSubject: Cell,
    shiftPreference: Cell,
    programmingContact: Cell,
    likesGames: Cell,
    ownsVideogame: Cell,
    ownsComputer: Cell,
    ownsInternet: Cell,
    ownsPhone: Cell,
    ownsMobileInternet: Cell)

  /** The categorical answers of an evaluation, each copied verbatim from one column. */
  datatype Field =
    | Gender | SchoolYear | IntendedUniversity
    | RatingExplanations | RatingApplications | RatingTechnologies | RatingUnderstanding | RatingOverall
    | InterestTechnology | InterestChallenges | InterestMath | InterestPortuguese
    | FavouriteSubject | ShiftPreference | ProgrammingContact | LikesGames
    | OwnsVideogame | OwnsComputer | OwnsInternet | OwnsPhone | OwnsMobileInternet

  /** The worksheet column each categorical field is read from. */
  function Column(f: Field): (col: nat)
    ensures col < Width
  {
    match f
    case Gender => 7
    case SchoolYear => 8
    case IntendedUniversity => 10
    case ShiftPreference => 11
    case InterestTechnology => 12
    case InterestChallenges => 13
    case InterestMath => 14
    case InterestPortuguese => 15
    case FavouriteSubject => 16
    case ProgrammingContact => 17
    case LikesGames => 18
    case OwnsVideogame => 19
    case OwnsComputer => 20
    case OwnsInternet => 21
    case OwnsPhone => 22
    case OwnsMobileInternet => 23
    case RatingExplanations => 24
    case RatingApplications => 25
    case RatingTechnologies => 26
    case RatingUnderstanding => 27
    case RatingOverall => 28
  }

  /** The value of a categorical field (the record's `a[campo]`). */
  function Get(e: Evaluation, f: Field): Cell
  {
    match f
    case Gender => e.gender
    case SchoolYear => e.schoolYear
    case IntendedUniversity => e.intendedUniversity
    case RatingExplanations => e.ratingExplanations
    case RatingApplications => e.ratingApplications
    case RatingTechnologies => e.ratingTechnologies
    case RatingUnderstanding => e.ratingUnderstanding
    case RatingOverall => e.ratingOverall
    case InterestTechnology => e.interestTechnology
    case InterestChallenges => e.interestChallenges
    case InterestMath => e.interestMath
    case InterestPortuguese => e.interestPortuguese
    case FavouriteSubject => e.favouriteSubject
    case ShiftPreference => e.shiftPreference
    case ProgrammingContact => e.programmingContact
    case LikesGames => e.likesGames
    case OwnsVideogame => e.ownsVideogame
    case OwnsComputer => e.ownsComputer
    case OwnsInternet => e.ownsInternet
    case OwnsPhone => e.ownsPhone
    case OwnsMobileInternet => e.ownsMobileInternet
  }

  /** The record built from one row; `today` stands for the clock used to derive the age. */
  function Normalize(row: Row, today: Date): (e: Evaluation)
    requires |row| >= Width
    ensures forall f :: Get(e, f) == row[Column(f)]
    ensures e.id == row[0]
    ensures e.age == CalcAge(row[6], today)
    ensures Truthy(e.name) && (Truthy(row[4]) ==> e.name == row[4])
    ensures !Truthy(row[4]) ==> e.name == Str(Anonymous)
    ensures if Truthy(row[2]) then e.completedAt == row[2] else e.completedAt == Empty
    ensures if Truthy(row[6]) then e.birthDate == row[6] else e.birthDate == Empty
  {
    Evaluation(
      id := row[0],
      completedAt := if Truthy(row[2]) then row[2] else Empty,
      name := if Truthy(row[4]) then row[4] else Str(Anonymous),
      birthDate := if Truthy(row[6]) then row[6] else Empty,
      age := CalcAge(row[6], today),
      gender := row[7],
      schoolYear := row[8],
      intendedUniversity := row[10],
      ratingExplanations := row[24],
      ratingApplications := row[25],
      ratingTechnologies := row[26],
      ratingUnderstanding := row[27],
      ratingOverall := row[28],
      interestTechnology := row[12],
      interestChallenges := row[13],
      interestMath := row[14],
      interestPortuguese := row[15],
      favouriteSubject := row[16],
      shiftPreference := row[11],
      programmingContact := row[17],
      likesGames := row[18],
      ownsVideogame := row[19],
      ownsComputer := row[20],
      ownsInternet := row[21],
      ownsPhone := row[22],
      ownsMobileInternet := row[23])
  }

  /** The optional query parameters of a listing or statistics request. */
  datatype Criteria = Criteria(
    gender: Option<string>,
    schoolYear: Option<string>,
    intendedUniversity: Option<string>,
    ageMin: Option<int>,
    ageMax: Option<int>)

  const NoCriteria: Criteria := Criteria(None, None, None, None, None)

  /** An evaluation meets every criterion that is given (truthy): exact
      equality on the text criteria, a known age within the given bounds. */
  predicate Satisfies(e: Evaluation, c: Criteria)
  {
    && (Given(c.gender) ==> e.gender == Str(c.gender.value))
    && (Given(c.schoolYear) ==> e.schoolYear == Str(c.schoolYear.value))
    && (Given(c.intendedUniversity) ==> e.intendedUniversity == Str(c.intendedUniversity.value))
    && (GivenBound(c.ageMin) ==> e.age.Some? && e.age.value >= c.ageMin.value)
    && (GivenBound(c.ageMax) ==> e.age.Some? && e.age.value <= c.ageMax.value)
  }

  /** A data row is listed: it has an id and its record meets the criteria. */
  predicate Listed(row: Row, c: Criteria, today: Date)
    requires |row| >= Width
  {
    row[0] != Empty && Satisfies(Normalize(row, today), c)
  }

  /** The data rows of a sheet: everything after the header row. */
  function DataRows(sheet: seq<Row>): seq<Row>
  {
    if sheet == [] then [] else sheet[1..]
  }

  /** The records of the listed rows, in row order. */
  function Listing(rows: seq<Row>, c: Criteria, today: Date): seq<Evaluation>
    requires AllWide(rows, Width)
  {
    if rows == [] then []
    else
      var last := rows[|rows| - 1];
      Listing(rows[..|rows| - 1], c, today) + (if Listed(last, c, today) then [Normalize(last, today)] else [])
  }

  /** The listing loop: skip rows without an id, apply each given criterion,
      append the record of every surviving row. */
  method ListEvaluations(sheet: seq<Row>, c: Criteria, today: Date) returns (evals: seq<Evaluation>)
    requires AllWide(DataRows(sheet), Width)
    ensures evals == Listing(DataRows(sheet), c, today)
    ensures forall e :: e in evals ==> e.id != Empty && Satisfies(e, c)
  {
    evals := [];
    if sheet == [] {
      return;
    }
    var rows := sheet[1..];
    for i := 0 to |rows|
      invariant evals == Listing(rows[..i], c, today)
    {
      assert rows[..i + 1][..i] == rows[..i];
      var row := rows[i];
      if row[0] != Empty {
        var age := CalcAge(row[6], today);
        if Given(c.gender) && row[7] != Str(c.gender.value) {
          continue;
        }
        if Given(c.schoolYear) && row[8] != Str(c.schoolYear.value) {
          continue;
        }
        if Given(c.intendedUniversity) && row[10] != Str(c.intendedUniversity.value) {
          continue;
        }
        if GivenBound(c.ageMin) && (age.None? || age.value < c.ageMin.value) {
          continue;
        }
        if GivenBound(c.ageMax) && (age.None? || age.value > c.ageMax.value) {
          continue;
        }
        evals := evals + [Normalize(row, today)];
      }
    }
    assert rows[..|rows|] == rows;
    ListedMeetCriteria(rows, c, today);
  }

  /** The listing is the order-preserving selection of exactly the rows that
      have an id and meet the criteria: `idx` names those rows, increasing. */
  lemma {:induction false} ListingOrigin(rows: seq<Row>, c: Criteria, today: Date) returns (idx: seq<nat>)
    requires AllWide(rows, Width)
    ensures |idx| == |Listing(rows, c, today)|
    ensures forall j, k :: 0 <= j < k < |idx| ==> idx[j] < idx[k]
    ensures forall k :: 0 <= k < |idx| ==>
              && idx[k] < |rows|
              && rows[idx[k]][0] != Empty
              && Listing(rows, c, today)[k] == Normalize(rows[idx[k]], today)
              && Satisfies(Listing(rows, c, today)[k], c)
    ensures forall i :: 0 <= i < |rows| && rows[i][0] != Empty && Satisfies(Normalize(rows[i], today), c) ==> i in idx
  {
    if rows == [] {
      idx := [];
    } else {
      var init := rows[..|rows| - 1];
      var last := rows[|rows| - 1];
      var prev := ListingOrigin(init, c, today);
      assert forall i :: 0 <= i < |init| ==> init[i] == rows[i];
      if Listed(last, c, today) {
        idx := prev + [|rows| - 1];
      } else {
        idx := prev;
      }
    }
  }

  /** No listed record lacks an id, and each meets every given criterion. */
  lemma ListedMeetCriteria(rows: seq<Row>, c: Criteria, today: Date)
    requires AllWide(rows, Width)
    ensures forall e :: e in Listing(rows, c, today) ==> e.id != Empty && Satisfies(e, c)
  {
    var idx := ListingOrigin(rows, c, today);
    forall e | e in Listing(rows, c, today)
      ensures e.id != Empty && Satisfies(e, c)
    {
      var k :| 0 <= k < |Listing(rows, c, today)| && Listing(rows, c, today)[k] == e;
    }
  }

  /** Every row with an id whose record meets the criteria is listed. */
  lemma ListingComplete(rows: seq<Row>, c: Criteria, today: Date, i: nat)
    requires AllWide(rows, Width)
    requires i < |rows| && rows[i][0] != Empty && Satisfies(Normalize(rows[i], today), c)
    ensures Normalize(rows[i], today) in Listing(rows, c, today)
  {
    var idx := ListingOrigin(rows, c, today);
    var k :| 0 <= k < |idx| && idx[k] == i;
  }

  /** Witness that a filtered listing embeds into the unfiltered one. */
  lemma {:induction false} NarrowingWitness(rows: seq<Row>, c: Criteria, today: Date) returns (idx: seq<nat>)
    requires AllWide(rows, Width)
    ensures Embeds(idx, Listing(rows, c, today), Listing(rows, NoCriteria, today))
  {
    if rows == [] {
      idx := [];
    } else {
      var init := rows[..|rows| - 1];
      var last := rows[|rows| - 1];
      var prev := NarrowingWitness(init, c, today);
      if Listed(last, c, today) {
        EmbedsAppend(prev, Listing(init, c, today), Listing(init, NoCriteria, today), Normalize(last, today));
        idx := prev + [|Listing(init, NoCriteria, today)|];
      } else if Listed(last, NoCriteria, today) {
        EmbedsExtend(prev, Listing(init, c, today), Listing(init, NoCriteria, today), Normalize(last, today));
        idx := prev;
      } else {
        idx := prev;
      }
    }
  }

  /** Adding criteria never adds records: the filtered listing is an
      order-preserving subsequence of the unfiltered one. */
  lemma ListingNarrows(rows: seq<Row>, c: Criteria, today: Date)
    requires AllWide(rows, Width)
    ensures IsSubsequence(Listing(rows, c, today), Listing(rows, NoCriteria, today))
  {
    var idx := NarrowingWitness(rows, c, today);
  }

  /** Python truthiness: an empty text criterion or a zero age bound
      constrains nothing, exactly as if it were not given. */
  lemma {:induction false} FalsyCriteriaIgnored(rows: seq<Row>, c: Criteria, today: Date)
    requires AllWide(rows, Width)
    ensures Listing(rows, c.(gender := Some("")), today) == Listing(rows, c.(gender := None), today)
    ensures Listing(rows, c.(schoolYear := Some("")), today) == Listing(rows, c.(schoolYear := None), today)
    ensures Listing(rows, c.(intendedUniversity := Some("")), today) == Listing(rows, c.(intendedUniversity := None), today)
    ensures Listing(rows, c.(ageMin := Some(0)), today) == Listing(rows, c.(ageMin := None), today)
    ensures Listing(rows, c.(ageMax := Some(0)), today) == Listing(rows, c.(ageMax := None), today)
  {
    if rows != [] {
      FalsyCriteriaIgnored(rows[..|rows| - 1], c, today);
    }
  }
}
