/** The session of the fee tracker's single page: the login screen (role
    choice, password, error message), the persisted state snapshot, the
    admin's new-student form and the staff's per-record payment drafts.
    Every state update goes through the pure functions of module Store. */
module Session {
  import opened Types
  import Store

  const InvalidPassword := "Invalid password. Please try again."

  /** The login check: an admin entering the admin secret or a staff member
      entering the staff secret gets in; nobody gets in without a role. */
  function Authenticate(role: Role, password: string, adminPassword: string, staffPassword: string): (ok: bool)
    ensures role == NoRole ==> !ok
    ensures role == Admin ==> (ok <==> password == adminPassword)
    ensures role == Staff ==> (ok <==> password == staffPassword)
  {
    (role == Admin && password == adminPassword) || (role == Staff && password == staffPassword)
  }

  /** The date a payment is recorded with: the one typed for that record, or
      today's date when none was typed or it was cleared. */
  function PaymentDate(drafts: map<string, string>, id: string, today: string): (date: string)
    ensures id in drafts && drafts[id] != "" ==> date == drafts[id]
    ensures id !in drafts || drafts[id] == "" ==> date == today
    ensures today != "" ==> date != ""
  {
    if id in drafts && drafts[id] != "" then drafts[id] else today
  }

  /** The remark a payment is recorded with: the one typed, or "". */
  function PaymentRemark(drafts: map<string, string>, id: string): (remark: string)
    ensures id in drafts ==> remark == drafts[id]
    ensures id !in drafts ==> remark == ""
  {
    if id in drafts then drafts[id] else ""
  }

  class App {
    const adminPassword: string
    const staffPassword: string

    var role: Role
    var password: string
    var error: string
    var isLoggedIn: bool
    var state: GlobalState

    /** The admin panel's new-student inputs. */
    var nameDraft: string
    var phoneDraft: string

    /** The staff panel's per-record date and remark inputs, keyed by id. */
    var dateDrafts: map<string, string>
    var remarkDrafts: map<string, string>

    /** Only a chosen role can be logged in. */
    ghost predicate Valid()
      reads this
    {
      isLoggedIn ==> role != NoRole
    }

    /** A fresh page: no role, nothing typed, logged out, and the saved
        snapshot when there is one, otherwise the empty default state. */
    constructor (adminSecret: string, staffSecret: string, saved: Option<GlobalState>, defaultFees: FeeConfig)
      ensures Valid()
      ensures adminPassword == adminSecret && staffPassword == staffSecret
      ensures role == NoRole && password == "" && error == "" && !isLoggedIn
      ensures saved.Some? ==> state == saved.value
      ensures saved.None? ==> state == Store.DefaultState(defaultFees)
      ensures nameDraft == "" && phoneDraft == "" && dateDrafts == map[] && remarkDrafts == map[]
    {
      adminPassword := adminSecret;
      staffPassword := staffSecret;
      role := NoRole;
      password := "";
      error := "";
      isLoggedIn := false;
      state := if saved.Some? then saved.value else Store.DefaultState(defaultFees);
      nameDraft := "";
      phoneDraft := "";
      dateDrafts := map[];
      remarkDrafts := map[];
    }

    /** The role buttons and the change-role link of the login screen. */
    method ChooseRole(r: Role)
      requires Valid() && !isLoggedIn
      modifies this
      ensures Valid() && role == r
      ensures password == old(password) && error == old(error) && isLoggedIn == old(isLoggedIn)
      ensures state == old(state)
      ensures nameDraft == old(nameDraft) && phoneDraft == old(phoneDraft)
      ensures dateDrafts == old(dateDrafts) && remarkDrafts == old(remarkDrafts)
    {
      role := r;
    }

    /** The password input of the login screen. */
    method TypePassword(pw: string)
      requires Valid() && !isLoggedIn
      modifies this
      ensures Valid() && password == pw
      ensures role == old(role) && error == old(error) && isLoggedIn == old(isLoggedIn)
      ensures state == old(state)
      ensures nameDraft == old(nameDraft) && phoneDraft == old(phoneDraft)
      ensures dateDrafts == old(dateDrafts) && remarkDrafts == old(remarkDrafts)
    {
      password := pw;
    }

    /** Submitting the login form: the right secret for the chosen role logs
        in and clears the error; anything else leaves the session logged
        out and shows the error message. The password input is required, so
        the form is never submitted while it is empty. */
    method HandleLogin()
      requires Valid() && !isLoggedIn && password != ""
      modifies this
      ensures Valid()
      ensures Authenticate(role, password, adminPassword, staffPassword) ==> isLoggedIn && error == ""
      ensures !Authenticate(role, password, adminPassword, staffPassword) ==> !isLoggedIn && error == InvalidPassword
      ensures role == old(role) && password == old(password) && state == old(state)
      ensures nameDraft == old(nameDraft) && phoneDraft == old(phoneDraft)
      ensures dateDrafts == old(dateDrafts) && remarkDrafts == old(remarkDrafts)
    {
      if role == Admin && password == adminPassword {
        error := "";
        isLoggedIn := true;
      } else if role == Staff && password == staffPassword {
        error := "";
        isLoggedIn := true;
      } else {
        error := InvalidPassword;
      }
    }

    /** The logout button: back to the role choice with the password
        cleared; the panels close, so their inputs are discarded. The state
        and the last error message stay. */
    method Logout()
      requires Valid() && isLoggedIn
      modifies this
      ensures Valid()
      ensures !isLoggedIn && role == NoRole && password == ""
      ensures error == old(error) && state == old(state)
      ensures nameDraft == "" && phoneDraft == "" && dateDrafts == map[] && remarkDrafts == map[]
    {
      isLoggedIn := false;
      role := NoRole;
      password := "";
      nameDraft := "";
      phoneDraft := "";
      dateDrafts := map[];
      remarkDrafts := map[];
    }

    /** The sidebar's category buttons. */
    method SetCategory(cat: FeeCategory)
      requires Valid() && isLoggedIn
      modifies this
      ensures Valid() && state == Store.SetCategory(old(state), cat)
      ensures role == old(role) && password == old(password) && error == old(error) && isLoggedIn
      ensures nameDraft == old(nameDraft) && phoneDraft == old(phoneDraft)
      ensures dateDrafts == old(dateDrafts) && remarkDrafts == old(remarkDrafts)
    {
      state := Store.SetCategory(state, cat);
    }

    /** The admin panel's name and phone inputs. */
    method TypeStudent(name: string, phone: string)
      requires Valid() && isLoggedIn && role == Admin
      modifies this
      ensures Valid() && nameDraft == name && phoneDraft == phone
      ensures role == old(role) && password == old(password) && error == old(error) && isLoggedIn
      ensures state == old(state) && dateDrafts == old(dateDrafts) && remarkDrafts == old(remarkDrafts)
    {
      nameDraft := name;
      phoneDraft := phone;
    }

    /** The admin's add button: with both inputs filled, appends a record
        under the fresh id `id` and clears the inputs; with either empty,
        nothing happens. */
    method SubmitStudent(id: string)
      requires Valid() && isLoggedIn && role == Admin
      modifies this
      ensures Valid()
      ensures old(nameDraft) != "" && old(phoneDraft) != "" ==>
        state == Store.AddStudent(old(state), id, old(nameDraft), old(phoneDraft)) &&
        nameDraft == "" && phoneDraft == ""
      ensures old(nameDraft) == "" || old(phoneDraft) == "" ==>
        state == old(state) && nameDraft == old(nameDraft) && phoneDraft == old(phoneDraft)
      ensures AllConsistent(old(state).students) ==> AllConsistent(state.students)
      ensures role == old(role) && password == old(password) && error == old(error) && isLoggedIn
      ensures dateDrafts == old(dateDrafts) && remarkDrafts == old(remarkDrafts)
    {
      if nameDraft != "" && phoneDraft != "" {
        if AllConsistent(state.students) {
          Store.ApplyKeepsConsistent(state, Store.Add(id, nameDraft, phoneDraft));
        }
        state := Store.AddStudent(state, id, nameDraft, phoneDraft);
        nameDraft := "";
        phoneDraft := "";
      }
    }

    /** The admin's delete button on a record. */
    method DeleteStudent(id: string)
      requires Valid() && isLoggedIn && role == Admin
      modifies this
      ensures Valid() && state == Store.DeleteStudent(old(state), id)
      ensures AllConsistent(old(state).students) ==> AllConsistent(state.students)
      ensures role == old(role) && password == old(password) && error == old(error) && isLoggedIn
      ensures nameDraft == old(nameDraft) && phoneDraft == old(phoneDraft)
      ensures dateDrafts == old(dateDrafts) && remarkDrafts == old(remarkDrafts)
    {
      if AllConsistent(state.students) {
        Store.ApplyKeepsConsistent(state, Store.Delete(id));
      }
      state := Store.DeleteStudent(state, id);
    }

    /** The admin's CSV upload: no file selected changes nothing; otherwise
        the file's text is imported, `newId(k)` being the fresh id of the
        k-th imported row. */
    method HandleCsvUpload(file: Option<string>, newId: nat -> string)
      requires Valid() && isLoggedIn && role == Admin
      modifies this
      ensures Valid()
      ensures file.None? ==> state == old(state)
      ensures file.Some? ==> state == Store.ImportCsv(old(state), file.value, newId)
      ensures AllConsistent(old(state).students) ==> AllConsistent(state.students)
      ensures role == old(role) && password == old(password) && error == old(error) && isLoggedIn
      ensures nameDraft == old(nameDraft) && phoneDraft == old(phoneDraft)
      ensures dateDrafts == old(dateDrafts) && remarkDrafts == old(remarkDrafts)
    {
      if file.Some? {
        var next := Store.ImportCsv(state, file.value, newId);
        ghost var consistent := AllConsistent(state.students);
        if consistent {
          Store.ImportKeepsConsistent(state, file.value, newId);
        }
        state := next;
        assert consistent ==> AllConsistent(state.students);
      }
    }

    /** One of the three fee-setup inputs: that category's amount changes. */
    method UpdateFee(cat: FeeCategory, amount: int)
      requires Valid() && isLoggedIn && role == Admin
      modifies this
      ensures Valid()
      ensures state == Store.SetFeeConfig(old(state), Store.WithFee(old(state).feeConfig, cat, amount))
      ensures role == old(role) && password == old(password) && error == old(error) && isLoggedIn
      ensures nameDraft == old(nameDraft) && phoneDraft == old(phoneDraft)
      ensures dateDrafts == old(dateDrafts) && remarkDrafts == old(remarkDrafts)
    {
      state := Store.SetFeeConfig(state, Store.WithFee(state.feeConfig, cat, amount));
    }

    /** The deadline input ("" when cleared). */
    method UpdateDueDate(date: string)
      requires Valid() && isLoggedIn && role == Admin
      modifies this
      ensures Valid() && state == Store.SetDueDate(old(state), date)
      ensures role == old(role) && password == old(password) && error == old(error) && isLoggedIn
      ensures nameDraft == old(nameDraft) && phoneDraft == old(phoneDraft)
      ensures dateDrafts == old(dateDrafts) && remarkDrafts == old(remarkDrafts)
    {
      state := Store.SetDueDate(state, date);
    }

    /** The staff panel's date input on one record. */
    method TypePaymentDate(id: string, date: string)
      requires Valid() && isLoggedIn && role == Staff
      modifies this
      ensures Valid() && dateDrafts == old(dateDrafts)[id := date]
      ensures remarkDrafts == old(remarkDrafts) && state == old(state)
      ensures role == old(role) && password == old(password) && error == old(error) && isLoggedIn
      ensures nameDraft == old(nameDraft) && phoneDraft == old(phoneDraft)
    {
      dateDrafts := dateDrafts[id := date];
    }

    /** The staff panel's remark input on one record. */
    method TypeRemark(id: string, remark: string)
      requires Valid() && isLoggedIn && role == Staff
      modifies this
      ensures Valid() && remarkDrafts == old(remarkDrafts)[id := remark]
      ensures dateDrafts == old(dateDrafts) && state == old(state)
      ensures role == old(role) && password == old(password) && error == old(error) && isLoggedIn
      ensures nameDraft == old(nameDraft) && phoneDraft == old(phoneDraft)
    {
      remarkDrafts := remarkDrafts[id := remark];
    }

    /** The staff's pay button on a record: records it as Paid with the typed
        date (today's when none) and the typed remark ("" when none). The
        inputs are kept. */
    method HandlePay(id: string, today: string)
      requires Valid() && isLoggedIn && role == Staff
      modifies this
      ensures Valid()
      ensures state == Store.UpdateFeeStatus(old(state), id,
        PaymentDate(dateDrafts, id, today), PaymentRemark(remarkDrafts, id))
      ensures AllConsistent(old(state).students) ==> AllConsistent(state.students)
      ensures role == old(role) && password == old(password) && error == old(error) && isLoggedIn
      ensures nameDraft == old(nameDraft) && phoneDraft == old(phoneDraft)
      ensures dateDrafts == old(dateDrafts) && remarkDrafts == old(remarkDrafts)
    {
      var date := PaymentDate(dateDrafts, id, today);
      var remark := PaymentRemark(remarkDrafts, id);
      if AllConsistent(state.students) {
        Store.ApplyKeepsConsistent(state, Store.Pay(id, date, remark));
      }
      state := Store.UpdateFeeStatus(state, id, date, remark);
    }
  }
}
