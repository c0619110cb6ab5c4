/** The admin dashboard's derived figures: every number is recomputed from
    the student list, the active category, the fee table and the due date. */
module Dashboard {
  import opened Types
  import opened Seqs
  import Text

  /** Milliseconds in a day, the divisor of the countdown (1000 * 3600 * 24). */
  const MsPerDay: int := 86400000

  // ------------------------------------------------------------- counts

  /** The records of one category, in list order: every record it holds
      is of the category, and every record of the category is in it. */
  function CategoryStudents(students: seq<Student>, cat: FeeCategory): (r: seq<Student>)
    ensures forall i :: 0 <= i < |r| ==> r[i].category == cat && r[i] in students
    ensures forall i :: 0 <= i < |students| && students[i].category == cat ==> students[i] in r
  {
    FilterKeepsSatisfying(students, (s: Student) => s.category == cat);
    Filter(students, (s: Student) => s.category == cat)
  }

  /** The Paid records among `students`. */
  function PaidOnly(students: seq<Student>): seq<Student> {
    Filter(students, (s: Student) => s.status == Paid)
  }

  /** The Unpaid records among `students`. */
  function UnpaidOnly(students: seq<Student>): seq<Student> {
    Filter(students, (s: Student) => s.status == Unpaid)
  }

  /** Number of records in the category. */
  function Total(students: seq<Student>, cat: FeeCategory): (r: nat)
    ensures r <= |students|
    ensures r == |students| <==> forall i :: 0 <= i < |students| ==> students[i].category == cat
  {
    FilterDropsNothing(students, (s: Student) => s.category == cat);
    |CategoryStudents(students, cat)|
  }

  /** Number of Paid records in the category; never more than the total. */
  function PaidCount(students: seq<Student>, cat: FeeCategory): (r: nat)
    ensures r <= Total(students, cat)
  {
    |PaidOnly(CategoryStudents(students, cat))|
  }

  /** `total - paidCount`, which is exactly the number of Unpaid records in
      the category, so it is never negative. */
  function UnpaidCount(students: seq<Student>, cat: FeeCategory): (r: nat)
    ensures r + PaidCount(students, cat) == Total(students, cat)
    ensures r == |UnpaidOnly(CategoryStudents(students, cat))|
  {
    var cs := CategoryStudents(students, cat);
    FilterSplitCount(cs, (s: Student) => s.status == Paid, (s: Student) => s.status == Unpaid);
    Total(students, cat) - PaidCount(students, cat)
  }

  // --------------------------------------------------------- percentage

  /** Facts about division by a positive number that the solver needs
      spelled out when the divisor is not a constant. */
  lemma DivBounds(n: int, d: int)
    requires d > 0
    ensures d * (n / d) <= n < d * (n / d) + d
  {
  }

  lemma {:induction false} MulMonotone(d: int, a: int, b: int)
    requires d > 0 && a <= b
    ensures d * a <= d * b
    decreases b - a
  {
    if a < b {
      MulMonotone(d, a, b - 1);
      assert d * b == d * (b - 1) + d;
    }
  }

  lemma DivUnique(n: int, d: int, q: int)
    requires d > 0
    requires d * q <= n < d * q + d
    ensures n / d == q
  {
    DivBounds(n, d);
    var q' := n / d;
    if q' < q {
      MulMonotone(d, q' + 1, q);
    } else if q' > q {
      MulMonotone(d, q + 1, q');
    }
  }

  /** The whole number nearest to 100 * paid / total, halves rounded up,
      satisfies the two inequalities that define it, and lies in [0, 100]
      while paid <= total. */
  lemma RoundHalfUpBounds(paid: nat, total: nat, r: int)
    requires total > 0 && r == (200 * paid + total) / (2 * total)
    ensures 2 * total * r <= 200 * paid + total < 2 * total * r + 2 * total
    ensures paid <= total ==> 0 <= r <= 100
  {
    var n, d := 200 * paid + total, 2 * total;
    DivBounds(n, d);
    if paid <= total {
      if r > 100 {
        MulMonotone(d, 101, r);
      }
      if r < 0 {
        MulMonotone(d, r, -1);
      }
    }
  }

  /** `Math.round(paid / total * 100)`, or 0 for an empty category, in exact
      arithmetic: the whole number nearest to 100 * paid / total, halves
      rounded up. */
  function PaidPercentage(paid: nat, total: nat): (r: int)
    ensures total == 0 ==> r == 0
    ensures total > 0 ==> 2 * total * r <= 200 * paid + total < 2 * total * r + 2 * total
    ensures paid <= total ==> 0 <= r <= 100
    ensures paid == 0 ==> r == 0
    ensures 0 < total == paid ==> r == 100
  {
    if total > 0 then
      var r := (200 * paid + total) / (2 * total);
      RoundHalfUpBounds(paid, total, r);
      if paid == 0 then
        DivUnique(total, 2 * total, 0);
        r
      else if paid == total then
        assert 200 * paid + total == 2 * total * 100 + total;
        DivUnique(200 * paid + total, 2 * total, 100);
        r
      else
        r
    else 0
  }

  /** The percentage the dashboard shows for a category. */
  function CategoryPercentage(students: seq<Student>, cat: FeeCategory): (r: int)
    ensures 0 <= r <= 100
    ensures Total(students, cat) == 0 ==> r == 0
  {
    PaidPercentage(PaidCount(students, cat), Total(students, cat))
  }

  /** A category where every record is Paid shows 100, one where none is shows 0. */
  lemma PercentageExtremes(students: seq<Student>, cat: FeeCategory)
    ensures Total(students, cat) > 0 && (forall i :: 0 <= i < |students| && students[i].category == cat ==> students[i].status == Paid)
      ==> CategoryPercentage(students, cat) == 100
    ensures (forall i :: 0 <= i < |students| && students[i].category == cat ==> students[i].status == Unpaid)
      ==> CategoryPercentage(students, cat) == 0
  {
    var cs := CategoryStudents(students, cat);
    if forall i :: 0 <= i < |students| && students[i].category == cat ==> students[i].status == Paid {
      assert forall i :: 0 <= i < |cs| ==> cs[i].status == Paid;
      FilterKeepsAll(cs, (s: Student) => s.status == Paid);
    }
    if forall i :: 0 <= i < |students| && students[i].category == cat ==> students[i].status == Unpaid {
      assert forall i :: 0 <= i < |cs| ==> cs[i].status == Unpaid;
      FilterKeepsNone(cs, (s: Student) => s.status == Paid);
    }
  }

  // --------------------------------------------------------------- money

  /** The fee of the active category: one lookup per category, defined for all three. */
  function FeeAmount(cfg: FeeConfig, cat: FeeCategory): (fee: int)
    ensures cat == Registration ==> fee == cfg.registration
    ensures cat == Admission ==> fee == cfg.admission
    ensures cat == Monthly ==> fee == cfg.monthly
  {
    if cat == Registration then cfg.registration
    else if cat == Admission then cfg.admission
    else cfg.monthly
  }

  /** Amount already received: Paid records times the fee. Together with
      what remains it makes up what is expected, and with a non-negative
      fee it lies between nothing and the expected amount. */
  function Collected(students: seq<Student>, cat: FeeCategory, cfg: FeeConfig): (r: int)
    ensures r + Remaining(students, cat, cfg) == Expected(students, cat, cfg)
    ensures FeeAmount(cfg, cat) >= 0 ==> 0 <= r <= Expected(students, cat, cfg)
  {
    Distribute(PaidCount(students, cat), UnpaidCount(students, cat), FeeAmount(cfg, cat));
    PaidCount(students, cat) * FeeAmount(cfg, cat)
  }

  /** Amount still owed: Unpaid records times the fee; with a non-negative
      fee it lies between nothing and the expected amount. */
  function Remaining(students: seq<Student>, cat: FeeCategory, cfg: FeeConfig): (r: int)
    ensures FeeAmount(cfg, cat) >= 0 ==> 0 <= r <= Expected(students, cat, cfg)
  {
    Distribute(PaidCount(students, cat), UnpaidCount(students, cat), FeeAmount(cfg, cat));
    UnpaidCount(students, cat) * FeeAmount(cfg, cat)
  }

  /** Amount expected from the whole category: nothing for an empty
      category, never negative with a non-negative fee. */
  function Expected(students: seq<Student>, cat: FeeCategory, cfg: FeeConfig): (r: int)
    ensures Total(students, cat) == 0 ==> r == 0
    ensures FeeAmount(cfg, cat) >= 0 ==> r >= 0
  {
    Total(students, cat) * FeeAmount(cfg, cat)
  }

  /** Collected and remaining add up to the expected amount, and with a
      non-negative fee nothing collected exceeds what is expected. */
  lemma AmountsAddUp(students: seq<Student>, cat: FeeCategory, cfg: FeeConfig)
    ensures Collected(students, cat, cfg) + Remaining(students, cat, cfg) == Expected(students, cat, cfg)
    ensures FeeAmount(cfg, cat) >= 0 ==>
      0 <= Collected(students, cat, cfg) <= Expected(students, cat, cfg) &&
      0 <= Remaining(students, cat, cfg) <= Expected(students, cat, cfg)
  {
    Distribute(PaidCount(students, cat), UnpaidCount(students, cat), FeeAmount(cfg, cat));
  }

  lemma Distribute(p: nat, u: nat, f: int)
    ensures p * f + u * f == (p + u) * f
    ensures f >= 0 ==> 0 <= p * f <= (p + u) * f && 0 <= u * f <= (p + u) * f
  {
  }

  /** Records of other categories do not change any figure of this one,
      wherever they sit in the list. */
  lemma {:induction false} OtherCategoriesIgnored(a: seq<Student>, others: seq<Student>, b: seq<Student>, cat: FeeCategory, cfg: FeeConfig)
    requires forall i :: 0 <= i < |others| ==> others[i].category != cat
    ensures CategoryStudents(a + others + b, cat) == CategoryStudents(a + b, cat)
    ensures Total(a + others + b, cat) == Total(a + b, cat)
    ensures PaidCount(a + others + b, cat) == PaidCount(a + b, cat)
    ensures UnpaidCount(a + others + b, cat) == UnpaidCount(a + b, cat)
    ensures CategoryPercentage(a + others + b, cat) == CategoryPercentage(a + b, cat)
    ensures Expected(a + others + b, cat, cfg) == Expected(a + b, cat, cfg)
    ensures Collected(a + others + b, cat, cfg) == Collected(a + b, cat, cfg)
    ensures Remaining(a + others + b, cat, cfg) == Remaining(a + b, cat, cfg)
  {
    OtherCategoriesDropped(a, others, b, cat);
  }

  lemma OtherCategoriesDropped(a: seq<Student>, others: seq<Student>, b: seq<Student>, cat: FeeCategory)
    requires forall i :: 0 <= i < |others| ==> others[i].category != cat
    ensures CategoryStudents(a + others + b, cat) == CategoryStudents(a + b, cat)
  {
    var inCat := (s: Student) => s.category == cat;
    FilterConcat(a + others, b, inCat);
    FilterConcat(a, others, inCat);
    FilterKeepsNone(others, inCat);
    FilterConcat(a, b, inCat);
    assert Filter(a + others, inCat) == Filter(a, inCat) + [];
    assert Filter(a, inCat) + [] == Filter(a, inCat);
  }

  /** How one record placed between two parts of the list adds to the
      counts of a category. */
  lemma CountsAround(a: seq<Student>, x: Student, b: seq<Student>, cat: FeeCategory)
    ensures Total(a + [x] + b, cat) == Total(a, cat) + (if x.category == cat then 1 else 0) + Total(b, cat)
    ensures PaidCount(a + [x] + b, cat) ==
      PaidCount(a, cat) + (if x.category == cat && x.status == Paid then 1 else 0) + PaidCount(b, cat)
  {
    var inCat := (s: Student) => s.category == cat;
    var paid := (s: Student) => s.status == Paid;
    FilterConcat(a + [x], b, inCat);
    FilterConcat(a, [x], inCat);
    var ca, cx, cb := Filter(a, inCat), Filter([x], inCat), Filter(b, inCat);
    assert CategoryStudents(a + [x] + b, cat) == ca + cx + cb;
    FilterConcat(ca + cx, cb, paid);
    FilterConcat(ca, cx, paid);
  }

  // ----------------------------------------------------------- countdown

  /** `Math.ceil(diff / MsPerDay)` on a whole number of milliseconds: the
      least whole number of days d with diff <= d days. */
  function CeilDays(diff: int): (d: int)
    ensures MsPerDay * (d - 1) < diff <= MsPerDay * d
  {
    -((-diff) / MsPerDay)
  }

  /** What the deadline card can show: nothing set, overdue, or a
      non-negative number of days. */
  datatype Countdown = NotSet | Overdue | DaysLeft(days: nat)

  /** `calculateDaysLeft`, with `diff` the milliseconds from now to the
      due date: "Overdue" exactly when the deadline passed a whole day ago
      or more; a deadline less than a day past still counts 0 days. */
  function CalculateDaysLeft(dueDate: string, diff: int): (c: Countdown)
    ensures c == NotSet <==> dueDate == ""
    ensures c == Overdue <==> dueDate != "" && diff <= -MsPerDay
    ensures c.DaysLeft? ==> MsPerDay * (c.days - 1) < diff <= MsPerDay * c.days
    ensures c.DaysLeft? && c.days == 0 <==> dueDate != "" && -MsPerDay < diff <= 0
  {
    if dueDate == "" then NotSet
    else
      var days := CeilDays(diff);
      if days < 0 then Overdue else DaysLeft(days)
  }

  /** The text of the admin deadline card: "Not set" and "Overdue" for those
      two cases only, and a text ending in " days left" otherwise. */
  function CountdownLabel(c: Countdown): (r: string)
    ensures c.NotSet? <==> r == "Not set"
    ensures c.Overdue? <==> r == "Overdue"
    ensures c.DaysLeft? <==> |r| > 10 && r[|r| - 10..] == " days left"
  {
    match c
    case NotSet => "Not set"
    case Overdue => "Overdue"
    case DaysLeft(d) => Text.NatToString(d) + " days left"
  }

  /** Different countdowns never read the same on the admin card. */
  lemma CountdownLabelInjective(c1: Countdown, c2: Countdown)
    requires CountdownLabel(c1) == CountdownLabel(c2)
    ensures c1 == c2
  {
    if c1.DaysLeft? && c2.DaysLeft? {
      var s1, s2 := Text.NatToString(c1.days), Text.NatToString(c2.days);
      assert |s1| == |s2| by {
        assert |CountdownLabel(c1)| == |s1| + 10 && |CountdownLabel(c2)| == |s2| + 10;
      }
      assert s1 == CountdownLabel(c1)[..|s1|];
      assert s2 == CountdownLabel(c2)[..|s2|];
      Text.NatToStringInjective(c1.days, c2.days);
    }
  }

  /** A due date 3.5 days ahead shows 4 days. */
  lemma CountdownRoundsUp()
    ensures CalculateDaysLeft("2025-01-01", 3 * MsPerDay + MsPerDay / 2) == DaysLeft(4)
  {
  }
}
