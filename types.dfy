/** The records of the fee tracker: students, the fee table, the whole
    persisted state and the login role. */
module Types {

  datatype Option<T> = None | Some(value: T)

  /** Whether a student's fee for their category has been received. */
  datatype FeeStatus = Paid | Unpaid

  /** The three fee categories; every student belongs to exactly one. */
  datatype FeeCategory = Registration | Admission | Monthly

  /** One fee record. Only the payment date and the remark are optional. */
  datatype Student = Student(
    id: string,
    serialNumber: string,
    name: string,
    phone: string,
    status: FeeStatus,
    category: FeeCategory,
    paymentDate: Option<string>,
    remarks: Option<string>)

  /** One amount per category, in whole currency units. */
  datatype FeeConfig = FeeConfig(registration: int, admission: int, monthly: int)

  /** The aggregate root: every student in insertion order, the fee table,
      one due date shared by all categories ("" when unset) and the
      category that scopes the views and new insertions. */
  datatype GlobalState = GlobalState(
    students: seq<Student>,
    feeConfig: FeeConfig,
    dueDate: string,
    activeCategory: FeeCategory)

  /** The role picked on the login screen; NoRole is the initial null. */
  datatype Role = Admin | Staff | NoRole

  const AllCategories: seq<FeeCategory> := [Registration, Admission, Monthly]

  /** The record invariant: an Unpaid record carries neither a payment date
      nor a remark, a Paid one always carries its payment date. */
  predicate Consistent(s: Student) {
    (s.status == Unpaid ==> s.paymentDate.None? && s.remarks.None?) &&
    (s.status == Paid ==> s.paymentDate.Some?)
  }

  predicate AllConsistent(students: seq<Student>) {
    forall i :: 0 <= i < |students| ==> Consistent(students[i])
  }

  /** The ids of a list of records. */
  function Ids(students: seq<Student>): set<string> {
    set i | 0 <= i < |students| :: students[i].id
  }

  /** No two records share an id (what randomly drawn UUIDs give in practice). */
  predicate UniqueIds(students: seq<Student>) {
    forall i, j :: 0 <= i < j < |students| ==> students[i].id != students[j].id
  }

  /** A status is exactly one of the two values. */
  lemma StatusIsPaidOrUnpaid(s: FeeStatus)
    ensures (s == Paid) != (s == Unpaid)
  {
  }

  /** A category is exactly one of the three values, and the list of
      categories the staff view iterates over names each once. */
  lemma CategoryIsOneOfThree(c: FeeCategory)
    ensures c in AllCategories
    ensures c == Registration || c == Admission || c == Monthly
    ensures |AllCategories| == 3
    ensures AllCategories[0] != AllCategories[1] && AllCategories[1] != AllCategories[2] && AllCategories[0] != AllCategories[2]
  {
  }
}
