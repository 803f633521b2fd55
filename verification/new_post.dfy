/** The "New Community Post" form: one-field updates of the form, and the guarded insert
    with empty optional fields stored as `null` and the rating kept for reviews only. */
module NewPost {

  import opened Js
  import Rows
  import Store

  datatype PostForm = PostForm(
    title: string, content: string, postType: string, category: string,
    eventDate: string, eventTime: string, eventLocation: string, rating: int)

  /** The form as the page opens: a discussion with rating 0 and every text field empty. */
  const InitialForm := PostForm("", "", "discussion", "", "", "", "", 0)

  /** The text fields `update(key, value)` is called with. */
  datatype PostField = Title | Content | PostType | Category | EventDate | EventTime | EventLocation

  function Get(form: PostForm, field: PostField): string
  {
    match field
    case Title => form.title
    case Content => form.content
    case PostType => form.postType
    case Category => form.category
    case EventDate => form.eventDate
    case EventTime => form.eventTime
    case EventLocation => form.eventLocation
  }

  /** `{ ...p, [key]: value }`: the field takes the value, every other field and the rating
      keep theirs. */
  function Set(form: PostForm, field: PostField, value: string): (r: PostForm)
    ensures Get(r, field) == value
    ensures forall g :: g != field ==> Get(r, g) == Get(form, g)
    ensures r.rating == form.rating
  {
    match field
    case Title => form.(title := value)
    case Content => form.(content := value)
    case PostType => form.(postType := value)
    case Category => form.(category := value)
    case EventDate => form.(eventDate := value)
    case EventTime => form.(eventTime := value)
    case EventLocation => form.(eventLocation := value)
  }

  /** Setting a field to the value it already has changes nothing. */
  lemma SetCurrentValue(form: PostForm, field: PostField)
    ensures Set(form, field, Get(form, field)) == form
  {
  }

  /** The later of two updates to the same field wins. */
  lemma SetTwice(form: PostForm, field: PostField, first: string, second: string)
    ensures Set(Set(form, field, first), field, second) == Set(form, field, second)
  {
  }

  /** Title and content are both required. */
  predicate Complete(form: PostForm)
  {
    form.title != "" && form.content != ""
  }

  /** The inserted post: the caller as author, empty category and event fields as `null`,
      and the rating only for a review; the counters are left to the store. */
  function PostRowFor(form: PostForm, userId: string, newId: string): (r: Rows.PostRow)
    ensures r.id == newId && r.userId == userId
    ensures r.title == form.title && r.content == form.content && r.postType == form.postType
    ensures r.rating.Some? <==> form.postType == "review"
    ensures r.rating.Some? ==> r.rating.value == form.rating
    ensures r.category == EmptyToNull(form.category)
    ensures r.eventDate == EmptyToNull(form.eventDate) && r.eventTime == EmptyToNull(form.eventTime)
    ensures r.eventLocation == EmptyToNull(form.eventLocation)
    ensures r.likesCount.None? && r.commentsCount.None?
  {
    Rows.PostRow(
      newId, userId, form.title, form.content, form.postType,
      EmptyToNull(form.category), EmptyToNull(form.eventDate), EmptyToNull(form.eventTime),
      EmptyToNull(form.eventLocation),
      if form.postType == "review" then Some(form.rating) else None,
      None, None)
  }

  /** Reading a stored post back into the form, `null` as "" and a missing rating as 0. */
  function FormOf(row: Rows.PostRow): PostForm
  {
    PostForm(
      row.title, row.content, row.postType, StrOr(row.category, ""),
      StrOr(row.eventDate, ""), StrOr(row.eventTime, ""), StrOr(row.eventLocation, ""),
      if row.rating.Some? then row.rating.value else 0)
  }

  /** Storing loses nothing but the rating of a post that is not a review. */
  lemma StoredPostRoundTrip(form: PostForm, userId: string, newId: string)
    ensures FormOf(PostRowFor(form, userId, newId))
         == if form.postType == "review" then form else form.(rating := 0)
  {
  }

  /** The page's form state. */
  class PostFormState {
    var form: PostForm

    constructor ()
      ensures form == InitialForm
    {
      form := InitialForm;
    }

    /** `update(key, value)` for a text field. */
    method Update(field: PostField, value: string)
      modifies this
      ensures form == Set(old(form), field, value)
    {
      form := Set(form, field, value);
    }

    /** `update("rating", s)` from the star buttons. */
    method SetRating(stars: int)
      modifies this
      ensures form == old(form).(rating := stars)
    {
      form := form.(rating := stars);
    }

    /** `handleSubmit`: no user means the login redirect; an incomplete form the error toast;
        otherwise one insert, whose acceptance decides between the error toast and the
        redirect to the feed. Nothing is written in the first two cases. */
    method Submit(posts: Store.Table<Rows.PostRow>, user: Option<string>, newId: string, accepted: bool)
      returns (outcome: Store.SubmitOutcome)
      modifies posts
      ensures form == old(form)
      ensures user.None? ==> outcome == Store.NotSignedIn
      ensures user.Some? && !Complete(form) ==> outcome == Store.Invalid
      ensures user.Some? && Complete(form) && !accepted ==> outcome == Store.Failed
      ensures outcome != Store.Submitted ==> posts.rows == old(posts.rows)
      ensures outcome == Store.Submitted <==> user.Some? && Complete(form) && accepted
      ensures outcome == Store.Submitted ==>
                posts.rows == old(posts.rows) + [PostRowFor(form, user.value, newId)]
    {
      if user.None? {
        return Store.NotSignedIn;
      }
      if !Complete(form) {
        return Store.Invalid;
      }
      if !accepted {
        return Store.Failed;
      }
      posts.Insert(PostRowFor(form, user.value, newId));
      outcome := Store.Submitted;
    }
  }
}
