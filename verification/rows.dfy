/** Rows of the record store tables the modelled pages read and write, with the columns
    those pages use. Nullable columns whose `null` the pages treat specially are `Option`s;
    timestamps are milliseconds since the epoch. */
module Rows {

  import opened Js

  datatype ListingRow = ListingRow(
    id: string, userId: string, title: string, description: string,
    category: string, subcategory: string,
    price: Option<int>, priceLabel: Option<string>, priceType: Option<string>,
    location: string, phone: string, whatsapp: string, instagram: string,
    isFeatured: Option<bool>, featuredUntil: Option<int>,
    isBoosted: Option<bool>, boostedUntil: Option<int>,
    status: Option<string>, images: Option<seq<string>>)

  datatype BusinessRow = BusinessRow(
    id: string, userId: string, name: string, description: string,
    categoryId: Option<string>, categoryName: Option<string>, subcategory: string,
    location: string, phone: string, whatsapp: string, instagram: string,
    services: Option<seq<string>>, status: Option<string>,
    isFeatured: Option<bool>, featuredUntil: Option<int>, images: Option<seq<string>>)

  datatype PaymentRow = PaymentRow(
    id: string, userId: string, listingId: Option<string>, businessId: Option<string>,
    paymentType: string, amount: int, status: Option<string>, reference: Option<string>)

  datatype PostRow = PostRow(
    id: string, userId: string, title: string, content: string, postType: string,
    category: Option<string>, eventDate: Option<string>, eventTime: Option<string>,
    eventLocation: Option<string>, rating: Option<int>,
    likesCount: Option<int>, commentsCount: Option<int>)

  datatype LikeRow = LikeRow(id: string, postId: string, userId: string)

  datatype CommentRow = CommentRow(id: string, postId: string, userId: string, content: string)

  datatype NotificationRow = NotificationRow(id: string, userId: string, title: string, isRead: Option<bool>)

  datatype FavoriteRow = FavoriteRow(id: string, userId: string, listingId: Option<string>, businessId: Option<string>)

  datatype ApplicationRow = ApplicationRow(id: string, jobId: string, userId: string, coverLetter: Option<string>)

  datatype JobRow = JobRow(
    id: string, userId: string, title: string, company: string, location: string,
    jobType: string, salary: string, description: string, requirements: string,
    contactEmail: string, contactPhone: string, contactWhatsapp: string)

  datatype Profile = Profile(userId: string, firstName: Option<string>, lastName: Option<string>)

  const Placeholder := "/placeholder.svg"

  /** `images?.[0] || "/placeholder.svg"`: the card image of a listing or business, the first
      image when there is a non-empty one, else the placeholder; never empty. */
  function Thumbnail(images: Option<seq<string>>): (r: string)
    ensures r != ""
    ensures r != Placeholder ==> images.Some? && images.value != [] && r == images.value[0]
    ensures images.Some? && images.value != [] && images.value[0] != "" ==> r == images.value[0]
  {
    FirstOr(images, Placeholder)
  }

  /** The `.eq("id", id)` selectors of the tables that are deleted from or updated by id. */
  function ListingIdIs(id: string): ListingRow -> bool
  {
    (l: ListingRow) => l.id == id
  }

  function BusinessIdIs(id: string): BusinessRow -> bool
  {
    (b: BusinessRow) => b.id == id
  }
}
