/**
 * Agent attributes (engine/agent/agent_data.rs): the education degree a number of
 * years of schooling earns, the age brackets, and the age on a given date.
 */
module AgentDatas {
  import opened Wrappers

  /** `EducationDegree`, whose derived order is the order of declaration. */
  datatype EducationDegree = NoDegree | HighSchool | Undergrad | Masters | Phd

  /** The position of a degree in the derived order. */
  function Rank(d: EducationDegree): nat {
    match d
    case NoDegree => 0
    case HighSchool => 1
    case Undergrad => 2
    case Masters => 3
    case Phd => 4
  }

  /** `from_years_of_education`: the highest degree whose threshold the years reach. */
  function FromYearsOfEducation(years: nat): EducationDegree {
    if years >= 20 then Phd
    else if years >= 17 then Masters
    else if years >= 16 then Undergrad
    else if years >= 12 then HighSchool
    else NoDegree
  }

  /** The degree's threshold in years of schooling. */
  function Threshold(d: EducationDegree): nat {
    match d
    case NoDegree => 0
    case HighSchool => 12
    case Undergrad => 16
    case Masters => 17
    case Phd => 20
  }

  /**
   * The degree earned is the one whose threshold the years reach while the next
   * degree's threshold is not reached: thresholds 12, 16, 17 and 20 years.
   */
  lemma DegreeThresholds(years: nat, d: EducationDegree)
    ensures FromYearsOfEducation(years) == d <==>
      years >= Threshold(d) && forall e :: Rank(e) == Rank(d) + 1 ==> years < Threshold(e)
  {
    forall e | Rank(e) == Rank(d) + 1 && FromYearsOfEducation(years) == d
      ensures years < Threshold(e)
    {
    }
    if years >= Threshold(d) && forall e :: Rank(e) == Rank(d) + 1 ==> years < Threshold(e) {
      match d
      case NoDegree => assert Rank(HighSchool) == 1;
      case HighSchool => assert Rank(Undergrad) == 2;
      case Undergrad => assert Rank(Masters) == 3;
      case Masters => assert Rank(Phd) == 4;
      case Phd =>
    }
  }

  /** More schooling never earns a lower degree. */
  lemma DegreeMonotone(y1: nat, y2: nat)
    requires y1 <= y2
    ensures Rank(FromYearsOfEducation(y1)) <= Rank(FromYearsOfEducation(y2))
  {
  }

  /** The source's test `education_degree`: the degrees are ordered as declared. */
  lemma DegreeOrder()
    ensures Rank(NoDegree) < Rank(HighSchool) < Rank(Undergrad) < Rank(Masters) < Rank(Phd)
  {
  }

  /** `Age`: a number of whole years. */
  datatype Age = Age(years: nat) {
    predicate IsAdult() { years >= 18 }
    predicate IsSenior() { years >= 65 }
    predicate IsWorkingAge() { 15 <= years < 65 }
  }

  /** Seniors are adults, working age excludes seniors, and adults are working age until 65. */
  lemma AgeBrackets(a: Age)
    ensures a.IsSenior() ==> a.IsAdult()
    ensures a.IsWorkingAge() ==> !a.IsSenior()
    ensures a.IsAdult() ==> a.IsWorkingAge() != a.IsSenior()
  {
  }

  /** A calendar date; months and days are compared as numbers. */
  datatype Date = Date(year: int, month: nat, day: nat)

  /** Dates in calendar order: by year, then month, then day. */
  predicate DateLeq(a: Date, b: Date) {
    a.year < b.year || (a.year == b.year && (a.month < b.month || (a.month == b.month && a.day <= b.day)))
  }

  /** `AgentData`. */
  datatype AgentData = AgentData(birthday: Date, yearsOfEducation: nat)

  /** `education_degree`. */
  function EducationDegreeOf(data: AgentData): (r: EducationDegree)
    ensures r == FromYearsOfEducation(data.yearsOfEducation)
  {
    FromYearsOfEducation(data.yearsOfEducation)
  }

  const U32: nat := 0x1_0000_0000

  /**
   * `age`: the difference of the years, cast to u32 (which wraps a negative
   * difference), less one when the current month and day come before the
   * birthday's. None stands for the u32 underflow of that subtraction, which
   * panics: a current date before the birthday in the birthday's own year.
   */
  function AgeOf(data: AgentData, current: Date): (r: Option<Age>)
    ensures r.None? <==> (current.year - data.birthday.year) % U32 == 0 && BeforeBirthdayInYear(data.birthday, current)
  {
    var diff := (current.year - data.birthday.year) % U32;
    if BeforeBirthdayInYear(data.birthday, current) then
      if diff == 0 then None else Some(Age(diff - 1))
    else Some(Age(diff))
  }

  /** The `minus_one` test of `age`: the current (month, day) comes before the birthday's. */
  predicate BeforeBirthdayInYear(birthday: Date, current: Date) {
    current.month < birthday.month || (current.month == birthday.month && current.day < birthday.day)
  }

  /** The k-th birthday. */
  function Anniversary(birthday: Date, k: nat): Date {
    Date(birthday.year + k, birthday.month, birthday.day)
  }

  /**
   * On any date from the birthday on (within the range a u32 difference covers),
   * the age is the number of birthdays reached: the k-th birthday has passed and
   * the next has not.
   */
  lemma AgeCountsBirthdays(data: AgentData, current: Date)
    requires DateLeq(data.birthday, current) && current.year - data.birthday.year < U32
    ensures AgeOf(data, current).Some?
    ensures var k := AgeOf(data, current).value.years;
      DateLeq(Anniversary(data.birthday, k), current) && !DateLeq(Anniversary(data.birthday, k + 1), current)
  {
    var diff := current.year - data.birthday.year;
    assert diff % U32 == diff;
  }

  /** The source's test `age`, for a birthday on 2000-02-15. */
  lemma AgeExamples()
    ensures var d := AgentData(Date(2000, 2, 15), 0);
      && AgeOf(d, Date(2000, 2, 15)) == Some(Age(0))
      && AgeOf(d, Date(2000, 10, 1)) == Some(Age(0))
      && AgeOf(d, Date(2001, 2, 14)) == Some(Age(0))
      && AgeOf(d, Date(2001, 2, 15)) == Some(Age(1))
      && AgeOf(d, Date(2001, 10, 1)) == Some(Age(1))
      && AgeOf(d, Date(2010, 2, 15)) == Some(Age(10))
  {
  }
}
