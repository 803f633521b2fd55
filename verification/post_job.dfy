/** The "Post a Job" form: one-field updates of the form, and the guarded insert of every
    form field together with the poster's id. */
module PostJob {

  import opened Js
  import Rows
  import Store

  datatype JobForm = JobForm(
    title: string, company: string, location: string, jobType: string, salary: string,
    description: string, requirements: string,
    contactEmail: string, contactPhone: string, contactWhatsapp: string)

  /** The form as the page opens: a full-time job with every text field empty. */
  const InitialForm := JobForm("", "", "", "full-time", "", "", "", "", "", "")

  /** The keys `update(key, value)` is called with. */
  datatype JobField =
    | Title | Company | Location | JobType | Salary | Description | Requirements
    | ContactEmail | ContactPhone | ContactWhatsapp

  function Get(form: JobForm, field: JobField): string
  {
    match field
    case Title => form.title
    case Company => form.company
    case Location => form.location
    case JobType => form.jobType
    case Salary => form.salary
    case Description => form.description
    case Requirements => form.requirements
    case ContactEmail => form.contactEmail
    case ContactPhone => form.contactPhone
    case ContactWhatsapp => form.contactWhatsapp
  }

  /** `{ ...p, [key]: value }`: the field takes the value, every other field keeps its own. */
  function Set(form: JobForm, field: JobField, value: string): (r: JobForm)
    ensures Get(r, field) == value
    ensures forall g :: g != field ==> Get(r, g) == Get(form, g)
  {
    match field
    case Title => form.(title := value)
    case Company => form.(company := value)
    case Location => form.(location := value)
    case JobType => form.(jobType := value)
    case Salary => form.(salary := value)
    case Description => form.(description := value)
    case Requirements => form.(requirements := value)
    case ContactEmail => form.(contactEmail := value)
    case ContactPhone => form.(contactPhone := value)
    case ContactWhatsapp => form.(contactWhatsapp := value)
  }

  /** Updates to two different fields commute. */
  lemma SetCommutes(form: JobForm, f: JobField, g: JobField, a: string, b: string)
    requires f != g
    ensures Set(Set(form, f, a), g, b) == Set(Set(form, g, b), f, a)
  {
  }

  /** Title and company are required. */
  predicate Complete(form: JobForm)
  {
    form.title != "" && form.company != ""
  }

  /** `{ ...form, user_id }`: the inserted job carries the poster's id and the form's fields. */
  function JobRowFor(form: JobForm, userId: string, newId: string): (r: Rows.JobRow)
    ensures r.id == newId && r.userId == userId
  {
    Rows.JobRow(
      newId, userId, form.title, form.company, form.location, form.jobType, form.salary,
      form.description, form.requirements, form.contactEmail, form.contactPhone, form.contactWhatsapp)
  }

  /** The form fields of a stored job. */
  function FormOf(row: Rows.JobRow): JobForm
  {
    JobForm(
      row.title, row.company, row.location, row.jobType, row.salary,
      row.description, row.requirements, row.contactEmail, row.contactPhone, row.contactWhatsapp)
  }

  /** Every form field is stored unchanged: reading the row back gives the form. */
  lemma StoredJobRoundTrip(form: JobForm, userId: string, newId: string)
    ensures FormOf(JobRowFor(form, userId, newId)) == form
  {
  }

  /** The page's form state. */
  class JobFormState {
    var form: JobForm

    constructor ()
      ensures form == InitialForm
    {
      form := InitialForm;
    }

    /** `update(key, value)`. */
    method Update(field: JobField, value: string)
      modifies this
      ensures form == Set(old(form), field, value)
    {
      form := Set(form, field, value);
    }

    /** `handleSubmit`: nothing without a signed-in user; the error toast for a missing title
        or company; otherwise one insert, whose acceptance decides between the error toast
        and the redirect to the jobs list. Nothing is written unless the insert goes through. */
    method Submit(jobs: Store.Table<Rows.JobRow>, user: Option<string>, newId: string, accepted: bool)
      returns (outcome: Store.SubmitOutcome)
      modifies jobs
      ensures form == old(form)
      ensures user.None? ==> outcome == Store.NotSignedIn
      ensures user.Some? && !Complete(form) ==> outcome == Store.Invalid
      ensures user.Some? && Complete(form) && !accepted ==> outcome == Store.Failed
      ensures outcome != Store.Submitted ==> jobs.rows == old(jobs.rows)
      ensures outcome == Store.Submitted <==> user.Some? && Complete(form) && accepted
      ensures outcome == Store.Submitted ==>
                jobs.rows == old(jobs.rows) + [JobRowFor(form, user.value, newId)]
    {
      if user.None? {
        return Store.NotSignedIn;
      }
      if !Complete(form) {
        return Store.Invalid;
      }
      if !accepted {
        return Store.Failed;
      }
      jobs.Insert(JobRowFor(form, user.value, newId));
      outcome := Store.Submitted;
    }
  }
}
