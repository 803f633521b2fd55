# FestacConnect page rules in Dafny

FestacConnect is a community marketplace web app for Festac Town, Lagos. Residents use it to
browse listings, businesses and jobs, post to a community feed, and manage their own content
from a dashboard. This project models the deterministic rules of its pages:

- **Browse filter chains.** The marketplace search / category / price filters and the four
  reorderings. The jobs search and type filter. The community, "my listings" and
  "my businesses" searches.
- **Query parameters and navigation.** The query-parameter update shared by the marketplace and
  jobs pages, and the exact-or-prefix `isActive` rules of the site header and the dashboard
  sidebar.
- **Listing and business detail pages.** The image carousel, the favourite toggle, and the
  WhatsApp and Instagram links.
- **Record-store writes.** New listing, business, post and job; boosting a listing or
  business with its payment record; likes and comments with their denormalised counters;
  marking notifications read; removing favourites; deleting listings and businesses;
  applying to a job.
- **Small text rules.** The price label, services parsing, the display-name fallback,
  type-badge capitalisation, WhatsApp digit stripping and the payment reference.

The hosted record store is replaced by in-memory tables: a `Store.Table` class holds a
`seq` of rows, and its `Insert`, `Delete` and `Update` methods reassign it. Whether the
store accepts a write is passed in as a boolean. The clock, the random reference suffix and
the ids the store assigns are also parameters. The formatter (`toLocaleString`) and the URL
encoder (`encodeURIComponent`) are function-valued parameters.

Text is a sequence of `char`, and upper and lower case are mapped over ASCII letters only.
Nullable columns are `Js.Option`, and JavaScript `||` and truthiness on them are written out
in module `Js`. Timestamps are integers, in milliseconds.

Modules, one per page, plus shared ones:

| module | file |
|---|---|
| `Seqs`, `Text`, `Js` | shared sequence, string and nullable-value operations |
| `Rows`, `Store` | the table rows and the in-memory store |
| `SearchParams` | `updateSearchParams` over a string map |
| `Marketplace`, `Jobs`, `Community`, `MyListings`, `MyBusinesses` | browse and owner lists |
| `Header`, `Dashboard` | navigation highlighting and menu flags |
| `Carousel`, `BusinessDetail` | detail pages (carousel, favourite, contact links) |
| `NewListing`, `NewBusiness`, `NewPost`, `PostJob` | creation forms |
| `Boost`, `PostDetail`, `Notifications`, `Favorites`, `JobDetail` | store write sequences |

## Model

| member | source | states |
|---|---|---|
| Text.Lower | src/pages/Marketplace.tsx:195 | `toLowerCase` keeps the length and maps each character through the ASCII lower-case map |
| Text.LowerIdempotent | src/pages/Jobs.tsx:107-111 | lower-casing twice is lower-casing once |
| Text.ContainsIffOccurs | src/pages/Marketplace.tsx:198-200 | `includes` holds exactly when the needle occurs at some position |
| Text.Split | src/components/layout/Header.tsx:30 | `split(sep)` gives one more piece than there are separators, and no piece contains the separator |
| Text.SplitFirstIsPrefix | src/components/layout/Header.tsx:30 | `split(sep)[0]` is a prefix of the input that ends at the first separator or at the end |
| Text.JoinSplit | src/pages/NewBusiness.tsx:56 | joining the pieces of a split with the separator gives back the input |
| Text.Trim | src/pages/CommunityPostDetail.tsx:118 | `trim` removes only leading and trailing blanks: the result is a slice with blank margins, and neither end is blank |
| Text.TrimCutsOnlySpace | src/pages/CommunityPostDetail.tsx:118 | what `trim` cuts off on either side is all white space, and the result is the slice between |
| Text.TrimEmptyIffBlank | src/pages/CommunityPostDetail.tsx:118 | `trim()` is empty exactly when the input is all blank |
| Text.DigitsOf | src/pages/JobDetail.tsx:173 | `replace(/\D/g, "")` keeps every digit as often as it occurs, and nothing else, in input order; its length is the number of digit positions |
| Text.DecimalString | src/pages/BoostListing.tsx:57 | the decimal text of a timestamp is non-empty and all digits (with `Boost.DecimalStringInjective`, one text per number) |
| Seqs.Filter | src/pages/Marketplace.tsx:196-212 | `filter` keeps exactly the elements that pass, and is never longer than the input |
| Seqs.FilterMultiplicity | src/pages/Marketplace.tsx:196-212 | `filter` keeps each passing element exactly as often as it occurs, and no other element |
| Seqs.FilterCountsPositions | src/pages/DashboardNotifications.tsx:38 | the length of a filter result is the number of positions that pass |
| Seqs.FilterIsSubsequence | src/pages/Marketplace.tsx:196-212 | a filter result is an order-preserving subsequence of its input |
| Seqs.FilterMonotone | src/pages/Marketplace.tsx:210-212 | a stronger test keeps a subsequence of what a weaker one keeps |
| Seqs.Reverse | src/pages/Marketplace.tsx:217 | `reverse` puts element `k` at position `n-1-k` |
| Seqs.ReverseInvolution | src/pages/Marketplace.tsx:217 | reversing twice restores the sequence |
| Seqs.ReversePermutes | src/pages/Marketplace.tsx:217 | reversing keeps the same multiset |
| Seqs.Dedupe | src/pages/CommunityPostDetail.tsx:65 | `[...new Set(xs)]` has no duplicates and exactly the elements of `xs` |
| Seqs.DedupeIsSubsequence | src/pages/CommunityPostDetail.tsx:65 | the de-duplicated list is an order-preserving subsequence of the input |
| Seqs.DedupeFirstOccurrenceOrder | src/pages/CommunityPostDetail.tsx:65 | `[...new Set(xs)]` lists the elements in the order of their first occurrences |
| Rows.Thumbnail | src/pages/MyListings.tsx:156 | the card image of a listing or business (also at src/pages/MyBusinesses.tsx line 70 and src/pages/DashboardFavorites.tsx line 59): the first non-empty image, else "/placeholder.svg"; never empty |
| Store.Table.Insert | src/pages/NewListing.tsx:53-68 | an accepted insert appends the row and keeps every other row |
| Store.Table.Delete | src/pages/MyListings.tsx:73 | a delete removes exactly the selected rows and keeps the rest in order |
| Store.Table.Update | src/pages/DashboardNotifications.tsx:26 | an update patches exactly the selected rows, in place |
| Store.Without | src/pages/MyListings.tsx:73 | the rows left by a delete are exactly the unselected ones, each as often as before, in their original order |
| Store.Patched | src/pages/BoostListing.tsx:78-80 | an update keeps positions, patches the selected rows and leaves the others untouched |
| Store.PatchedTwice | src/pages/BoostListing.tsx:78 | repeating an update whose patch is idempotent changes nothing |
| Js.StrOr | src/pages/MyListings.tsx:183-184 | `s \|\| fallback`: a non-empty string is kept, null or "" give the fallback |
| Js.IntOr | src/pages/CommunityPostDetail.tsx:106 | `n \|\| fallback`: null and 0 give the fallback |
| Js.EmptyToNull | src/pages/NewCommunityPost.tsx:51-54 | `s \|\| null`: "" becomes null, anything else is kept |
| Js.FirstOr | src/pages/MyListings.tsx:156 | `xs?.[0] \|\| fallback`: the first element when present and non-empty, else the fallback |
| Js.NumberOf | src/pages/MyListings.tsx:184 | `Number(x)` for a nullable integer: null converts to 0 |
| SearchParams.Get | src/pages/Marketplace.tsx:186-188 | `get(key) \|\| fallback`: an absent or empty parameter reads as the fallback |
| SearchParams.WithParam | src/pages/Marketplace.tsx:233-241 | a non-empty value other than "all" is set; otherwise the key is removed; every other key is unchanged |
| SearchParams.GetAfterWithParam | src/pages/Jobs.tsx:115-123 | reading a key back after updating it gives the value, or the fallback when the value was dropped |
| SearchParams.ResetReadsAsAll | src/pages/Marketplace.tsx:235-238 | choosing "all" or "" makes the parameter read as the page default "all" |
| Marketplace.Filtered | src/pages/Marketplace.tsx:191-212 | a listing survives exactly when the search (title, description or location; the empty search keeps everything), category ("all" or empty keeps everything) and inclusive price tests all pass |
| Marketplace.FilteredIsSubsequence | src/pages/Marketplace.tsx:191-212 | the filtered list keeps source order and never duplicates |
| Marketplace.WiderPriceRangeKeepsMore | src/pages/Marketplace.tsx:210-212 | widening the price range only adds listings |
| Marketplace.ReverseInPlace | src/pages/Marketplace.tsx:217 | the array is reversed in place |
| Marketplace.Swap | src/pages/Marketplace.tsx:220 | exchanging two cells keeps the multiset |
| Marketplace.SinkLast | src/pages/Marketplace.tsx:220 | one insertion step extends the sorted prefix by one, as a permutation |
| Marketplace.SortInPlace | src/pages/Marketplace.tsx:219-227 | the array ends sorted by the comparator's key and is a permutation of its start |
| Marketplace.FilteredListings | src/pages/Marketplace.tsx:190-231 | "oldest" gives the filtered list reversed; "price-low" / "price-high" / "popular" give a permutation ordered by ascending price / descending price / descending views; any other sort gives the filtered list unchanged |
| Marketplace.ActiveFiltersCount | src/pages/Marketplace.tsx:248-252 | the badge is at most 3, and 0 exactly when there is no search, no category and the full 0–50,000,000 price range |
| Marketplace.EachActiveFilterCountsOne | src/pages/Marketplace.tsx:248-252 | a search, a category other than "all", and a narrowed price range each add exactly one to the badge |
| Marketplace.NoActiveFilterHidesNothing | src/pages/Marketplace.tsx:248-252 | with a zero badge, every listing priced within the slider is shown |
| Marketplace.MarketplaceFilters.constructor | src/pages/Marketplace.tsx:186-188 | the page starts from the URL's parameters and the full price range |
| Marketplace.MarketplaceFilters.UpdateSearchParams | src/pages/Marketplace.tsx:233-241 | the parameters become `WithParam` of the old ones; the price range is kept |
| Marketplace.MarketplaceFilters.SetPriceRange | src/pages/Marketplace.tsx:210-212 | the slider sets both ends and leaves the parameters |
| Marketplace.MarketplaceFilters.ClearFilters | src/pages/Marketplace.tsx:243-246 | parameters emptied and the full range restored; the page reads the defaults and the badge shows 0 |
| Jobs.FilteredJobs | src/pages/Jobs.tsx:104-113 | a job is kept exactly when the search (empty, title or company) and the type test (case-insensitive equality or "all") both pass; order is kept |
| Jobs.SearchIgnoresOtherFields | src/pages/Jobs.tsx:105-108 | location, salary and description never affect the search |
| Jobs.TypeFilterIgnoresCase | src/pages/Jobs.tsx:109-111 | a "Full-time" job matches the filter "full-time" |
| Jobs.UnfilteredShowsAll | src/pages/Jobs.tsx:104-113 | empty search and type "all" give every job, in order |
| Jobs.JobsFilters.constructor | src/pages/Jobs.tsx:100-102 | the page starts from the URL's parameters |
| Jobs.JobsFilters.UpdateSearchParams | src/pages/Jobs.tsx:115-123 | the parameters become `WithParam` of the old ones |
| Jobs.JobsFilters.ClearFilters | src/pages/Jobs.tsx:249-251 | parameters emptied, after which the filter returns every job |
| Carousel.NextIndex | src/pages/ListingDetail.tsx:112-114 | `(i + 1) % n` stays in `[0, n)` and wraps the last index to 0 |
| Carousel.PrevIndex | src/pages/ListingDetail.tsx:116-118 | `(i - 1 + n) % n` stays in `[0, n)` and wraps 0 to `n - 1` |
| Carousel.NextPrevInverse | src/pages/BusinessDetail.tsx:108-114 | previous undoes next and next undoes previous |
| Carousel.NextTimes | src/pages/ListingDetail.tsx:112-114 | any number of "next" clicks stays in range |
| Carousel.NextTimesAdvances | src/pages/ListingDetail.tsx:112-114 | `k <= n` clicks advance by `k` modulo `n` |
| Carousel.FullCycleReturns | src/pages/ListingDetail.tsx:112-114 | `n` clicks return to the starting image |
| Carousel.Gallery.constructor | src/pages/ListingDetail.tsx:109-110 | the first image, not favourited |
| Carousel.Gallery.Next | src/pages/ListingDetail.tsx:112-114 | the index becomes `NextIndex` and stays valid |
| Carousel.Gallery.Prev | src/pages/BusinessDetail.tsx:112-114 | the index becomes `PrevIndex` and stays valid |
| Carousel.Gallery.Select | src/pages/ListingDetail.tsx:183 | a thumbnail or dot click sets exactly that index |
| Carousel.Gallery.ToggleFavorite | src/pages/ListingDetail.tsx:289 | the heart negates the favourite flag |
| Carousel.Gallery.ToggleFavoriteTwice | src/pages/BusinessDetail.tsx:312 | two heart clicks restore the flag |
| BusinessDetail.EnquiryMessage | src/pages/BusinessDetail.tsx:117 | the enquiry text quotes the business name |
| BusinessDetail.WhatsAppEnquiryUrl | src/pages/BusinessDetail.tsx:116-119 | the link is "https://wa.me/", the owner's number, "?text=" and the encoded message |
| BusinessDetail.EnquiryUrlIdentifiesNumber | src/pages/BusinessDetail.tsx:118 | two numbers without "?" that give the same link are equal |
| BusinessDetail.InstagramUrl | src/pages/BusinessDetail.tsx:121-123 | the link is "https://instagram.com/" followed by the handle |
| BusinessDetail.ShowsInstagram | src/pages/BusinessDetail.tsx:293 | the Instagram button is shown exactly when its link names a profile (a non-empty handle) |
| BusinessDetail.ShownInstagramNamesProfile | src/pages/BusinessDetail.tsx:293 | the button is shown only for a non-empty handle, so its link names a profile |
| NewListing.FindCategory | src/pages/NewListing.tsx:40 | the found category has the chosen value; none is found only when no category has it |
| NewListing.SubcategoryOptions | src/pages/NewListing.tsx:115 | the options list the chosen category's subcategories, each with its lower-cased name as value |
| NewListing.PriceLabel | src/pages/NewListing.tsx:48-51 | "₦n/month", "₦n/year", "From ₦n", or "₦n" for any other price type |
| NewListing.PriceLabelShowsAmount | src/pages/NewListing.tsx:48-51 | every label contains the formatted amount, and starts with "From " exactly for "starting" |
| NewListing.ListingRowFor | src/pages/NewListing.tsx:53-68 | the row has the caller as owner, status "active", the parsed price (0 when unparseable), the computed label, the chosen type and featured switch, and the form's text |
| NewListing.MissingPriceStoredAsZero | src/pages/NewListing.tsx:47 | an empty or unparseable price is stored as 0 and labelled as 0 |
| NewListing.Submit | src/pages/NewListing.tsx:42-82 | no user writes nothing; a refused insert writes nothing; otherwise exactly the listing row is appended |
| Boost.FindPlan | src/pages/BoostListing.tsx:53 | the found plan has the selected id; none is found only when no plan has it |
| Boost.PlanPrices | src/pages/BoostListing.tsx:11-39 | weekly 2000, monthly 5000, premium 10000; any other id finds no plan |
| Boost.DurationDays | src/pages/BoostListing.tsx:54 | 7 days for "weekly", 30 for "monthly", 90 otherwise |
| Boost.FeaturedUntil | src/pages/BoostListing.tsx:55 | the expiry is now plus the duration in milliseconds, so strictly later than now |
| Boost.LongerPlansExpireLater | src/pages/BoostListing.tsx:54-55 | weekly expires before monthly, and monthly before premium |
| Boost.Reference | src/pages/BoostListing.tsx:57 | "PAY-", the decimal clock reading, "-" and the random suffix |
| Boost.ReferenceDistinguishesTime | src/pages/BoostListing.tsx:57 | equal references come from the same clock reading and suffix |
| Boost.DecimalStringInjective | src/pages/BoostListing.tsx:57 | different clock readings print differently |
| Boost.PaymentRowFor | src/pages/BoostListing.tsx:60-68 | the listing id only for "listing", the business id only for "business", never both; "featured_listing" exactly for listings; the plan's price; status "completed" |
| Boost.BoostedListingState | src/pages/BoostListing.tsx:78 | a boosted listing is featured and boosted with equal expiries; other rows are untouched |
| Boost.BoostTwiceSameExpiry | src/pages/BoostListing.tsx:78 | repeating the listing update with the same expiry changes nothing |
| Boost.HandlePayment | src/pages/BoostListing.tsx:49-86 | no user or id, an unknown plan, or a refused payment writes nothing; otherwise the payment row is appended, then only the listing (for "listing") or only the business is updated |
| PostDetail.LikedCount | src/pages/CommunityPostDetail.tsx:106 | a like writes `(likes_count \|\| 0) + 1` |
| PostDetail.UserLikedIffLikeRow | src/pages/CommunityPostDetail.tsx:83-96 | "liked" implies a like row of the user for the post; while there is at most one such row, "liked" holds exactly when there is one |
| PostDetail.UnlikedCount | src/pages/CommunityPostDetail.tsx:103 | an unlike writes `max(0, (likes_count \|\| 1) - 1)`, never negative |
| PostDetail.LikeThenUnlikeRestores | src/pages/CommunityPostDetail.tsx:101-106 | a like followed by an unlike restores a non-negative counter |
| PostDetail.ToggleFlipsLike | src/pages/CommunityPostDetail.tsx:101-106 | with at most one like of the pair, a toggle flips `userLiked`, keeps at most one like and keeps everyone else's likes |
| PostDetail.ToggleLike | src/pages/CommunityPostDetail.tsx:98-113 | without a user nothing is written; otherwise the like rows toggle and the counter is overwritten from the cached value, each unless refused |
| PostDetail.AddComment | src/pages/CommunityPostDetail.tsx:115-136 | without a user, or with a blank comment, or with a refused insert, nothing is written; otherwise the trimmed text is appended and the counter becomes `(comments_count \|\| 0) + 1` unless refused |
| PostDetail.UserIdsOf | src/pages/CommunityPostDetail.tsx:65 | `comments.map(c => c.user_id)` |
| PostDetail.CommentUserIds | src/pages/CommunityPostDetail.tsx:65 | each commenter once, exactly the users who commented, in the order of their first comments |
| PostDetail.ProfileFor | src/pages/CommunityPostDetail.tsx:80 | the profile found belongs to the user; none is found only when no profile does |
| PostDetail.DisplayName | src/pages/CommunityPostDetail.tsx:156 | the trimmed "first last", or "User" without a profile or with a blank name; never blank |
| PostDetail.FirstNameAlone | src/pages/CommunityPostDetail.tsx:269 | a profile with only a first name shows that name alone |
| NewBusiness.TrimAll | src/pages/NewBusiness.tsx:56 | `map(s => s.trim())`, position by position |
| NewBusiness.ParseServices | src/pages/NewBusiness.tsx:56 | every non-blank trimmed piece is kept, as often as it occurs and in input order, and nothing else: no service is empty or has a blank at either end |
| NewBusiness.SplitBlank | src/pages/NewBusiness.tsx:56 | splitting a blank string gives only blank pieces |
| NewBusiness.BlankServicesGiveNone | src/pages/NewBusiness.tsx:56 | empty or all-blank input gives no services |
| NewBusiness.FindCategory | src/pages/NewBusiness.tsx:38 | the found category has the chosen id; none is found only when no category has it |
| NewBusiness.FindCategoryFirst | src/pages/NewBusiness.tsx:38 | the first category with the id is the one found |
| NewBusiness.CategoryName | src/pages/NewBusiness.tsx:50 | the found category's name, or "" |
| NewBusiness.BusinessRowFor | src/pages/NewBusiness.tsx:45-58 | the caller as owner, status "active", null category id when none is chosen, the category name, the parsed services and the form's text |
| NewBusiness.Submit | src/pages/NewBusiness.tsx:40-67 | no user or a refused insert writes nothing; otherwise exactly the business row is appended |
| Header.SplitFirstPiece | src/components/layout/Header.tsx:30 | the first piece of a split is the text before the first separator |
| Header.SplitWithoutSeparator | src/components/layout/Header.tsx:30 | text without the separator splits into itself |
| Header.PathOf | src/components/layout/Header.tsx:30 | the path part of a link: the text before its first "?", or all of it |
| Header.IsActive | src/components/layout/Header.tsx:28-31 | "Home" is active only on "/"; any other link on exactly the paths that extend its path part |
| Header.PlainLinkActiveOnPrefix | src/components/layout/Header.tsx:30 | a link other than home without a query is active exactly on paths starting with it |
| Header.QueryStringIgnored | src/components/layout/Header.tsx:30 | a query string on a link does not change where it is active |
| Header.MarketplaceAndServicesTogether | src/components/layout/Header.tsx:17-18 | "Marketplace" and "Services" are active on exactly the same paths |
| Header.HeaderState.constructor | src/components/layout/Header.tsx:24-25 | menu and search start closed |
| Header.HeaderState.ToggleSearch | src/components/layout/Header.tsx:81 | the search button negates the search flag only |
| Header.HeaderState.ToggleMenu | src/components/layout/Header.tsx:131 | the menu button negates the menu flag only |
| Header.HeaderState.FollowMobileLink | src/components/layout/Header.tsx:161 | a mobile link closes the menu |
| Dashboard.OverviewOnlyOnItself | src/pages/Dashboard.tsx:33 | on every strict sub-path of "/dashboard/", "Overview" is not active |
| Dashboard.IsActive | src/pages/Dashboard.tsx:32-35 | "Overview" is active only on "/dashboard"; any other link on exactly the paths that extend it |
| Dashboard.ActiveBelowLink | src/pages/Dashboard.tsx:34 | a link other than "Overview" is active on every path below it |
| Dashboard.PrefixesAgree | src/pages/Dashboard.tsx:34 | two prefixes of one path agree where both are defined |
| Dashboard.AtMostOneActive | src/pages/Dashboard.tsx:20-35 | whatever the path, at most one sidebar link is active |
| Dashboard.SidebarState.constructor | src/pages/Dashboard.tsx:30 | the sidebar starts closed |
| Dashboard.SidebarState.Toggle | src/pages/Dashboard.tsx:51 | the menu button negates the flag |
| Dashboard.SidebarState.Close | src/pages/Dashboard.tsx:112 | a nav click or the overlay closes the sidebar |
| MyListings.FilteredListings | src/pages/MyListings.tsx:82-89 | a listing is kept exactly when its lower-cased title contains the lower-cased query and the status filter is "all" or equals its status; order kept |
| MyListings.SearchReadsTitleOnly | src/pages/MyListings.tsx:83-85 | description, category and location never affect the search |
| MyListings.InitialFiltersKeepAll | src/pages/MyListings.tsx:54-55 | the opening filters (empty search, "all") show every listing in order |
| MyListings.StatusNarrows | src/pages/MyListings.tsx:86-87 | choosing one status keeps a subsequence of what "all" keeps |
| MyListings.PriceCell | src/pages/MyListings.tsx:183-184 | the stored label when non-empty, else "₦" and the formatted price (null as 0) |
| MyListings.Delete | src/pages/MyListings.tsx:71-80 | an accepted delete removes exactly the rows with that id; a refused one changes nothing |
| MyBusinesses.FilteredBusinesses | src/pages/MyBusinesses.tsx:40 | a business is kept exactly when its lower-cased name contains the lower-cased query; order kept |
| MyBusinesses.EmptySearchKeepsAll | src/pages/MyBusinesses.tsx:40 | an empty search keeps every business in order |
| MyBusinesses.CategoryBadge | src/pages/MyBusinesses.tsx:74 | the category name when non-empty, else "Business" |
| MyBusinesses.ShowsFeatured | src/pages/MyBusinesses.tsx:75 | the "Featured" badge shows exactly when the flag is `true`; `null` and `false` hide it |
| MyBusinesses.Delete | src/pages/MyBusinesses.tsx:29-38 | an accepted delete removes exactly the rows with that id |
| Notifications.Mine | src/pages/DashboardNotifications.tsx:14-17 | the page lists exactly the user's notifications |
| Notifications.UnreadIffNullOrFalse | src/pages/DashboardNotifications.tsx:38 | `!n.is_read`: a notification is unread exactly when its flag is `null` or `false` |
| Notifications.UnreadCount | src/pages/DashboardNotifications.tsx:38-45 | the number shown is the number of unread positions in the list (a `null` flag counts); it is 0 exactly when none is unread |
| Notifications.MarkAllShownIffSomeUnread | src/pages/DashboardNotifications.tsx:47 | the button is shown exactly when some notification is unread |
| Notifications.WithRead | src/pages/DashboardNotifications.tsx:26 | marking one read sets the flag on the rows with that id and changes no other row |
| Notifications.MarkReadNeverAddsUnread | src/pages/DashboardNotifications.tsx:26 | marking one read never raises the unread count |
| Notifications.Click | src/pages/DashboardNotifications.tsx:65 | an unread notification is marked read; a read one triggers no write |
| Notifications.MarkAllReadAsWritten | src/pages/DashboardNotifications.tsx:33 | as written: only the user's rows whose flag is `false` are marked; null-flag rows and other users' rows are untouched |
| Notifications.MarkAllReadAsWrittenIdempotent | src/pages/DashboardNotifications.tsx:33 | repeating it changes nothing |
| Notifications.NullFlagSurvivesMarkAll | src/pages/DashboardNotifications.tsx:33-47 | a null-flag notification stays counted as unread after it, so the button never goes away |
| Notifications.AllRead | src/pages/DashboardNotifications.tsx:33 | as intended: every unread notification of the user gets `is_read = true` and nothing else changes in it; other users' rows and rows already read are untouched |
| Notifications.AllReadClearsCount | src/pages/DashboardNotifications.tsx:38-47 | afterwards the user's unread count is 0 and the button disappears |
| Notifications.AllReadIdempotent | src/pages/DashboardNotifications.tsx:33 | marking all read twice equals once |
| Notifications.MarkAllRead | src/pages/DashboardNotifications.tsx:31-36 | an accepted update leaves the table as `AllRead` |
| Favorites.ItemOf | src/pages/DashboardFavorites.tsx:53-54 | the joined listing when present, else the joined business; nothing only when neither is joined |
| Favorites.CardFor | src/pages/DashboardFavorites.tsx:52-66 | no card exactly when there is no item; the card removes its own favourite, has an image and is headed by the item's title or name |
| Favorites.ListingFavoriteLinksToListing | src/pages/DashboardFavorites.tsx:55-66 | a listing favourite links to "/listing/{id}" and shows the listing's title |
| Favorites.BusinessFavoriteLinksToBusiness | src/pages/DashboardFavorites.tsx:55-66 | a business favourite links to "/business/{id}" and shows the business's name |
| Favorites.Cards | src/pages/DashboardFavorites.tsx:52-54 | one card per favourite with an item; favourites without one are skipped |
| Favorites.CardsFollowFavorites | src/pages/DashboardFavorites.tsx:52-54 | card `i` is the card of the `i`-th favourite that has an item, so the grid keeps the favourites' order |
| Favorites.CardsRemoveDistinctFavorites | src/pages/DashboardFavorites.tsx:70 | with distinct favourite ids, no two cards remove the same favourite |
| Favorites.RemoveFavorite | src/pages/DashboardFavorites.tsx:27-35 | an accepted delete removes exactly the favourite rows with that id |
| Community.FilteredPosts | src/pages/Community.tsx:114-118 | a post is kept exactly when the lower-cased query occurs in its lower-cased title or content; order kept |
| Community.EmptySearchShowsAll | src/pages/Community.tsx:112-118 | the empty search shows the whole feed |
| Community.QueryCaseIgnored | src/pages/Community.tsx:116-117 | the case of the query does not change the result |
| Community.Capitalized | src/pages/Community.tsx:193 | the first character upper-cased, the rest unchanged |
| Community.ShowsRating | src/pages/Community.tsx:210 | the star row is shown exactly for a review whose rating is truthy (set and non-zero) |
| Community.ShowsEventDate | src/pages/Community.tsx:226 | the date row is shown exactly for an event whose date is truthy (set and non-empty) |
| Community.CapitalizedLowersBack | src/pages/Community.tsx:193 | lower-casing the badge gives back a lower-case type |
| Community.Stars | src/pages/Community.tsx:212-217 | five stars; star `i` is filled exactly when `i < rating` |
| Community.FilledPrefix | src/pages/Community.tsx:212-217 | among the first `n` stars, `min(max(rating, 0), n)` are filled |
| Community.FilledStarsMatchRating | src/pages/Community.tsx:210-217 | a rating from 0 to 5 fills that many stars, more fills all five, a negative one none |
| JobDetail.Applications | src/pages/JobDetail.tsx:59-64 | exactly the user's applications to the job |
| JobDetail.ApplicantCount | src/pages/JobDetail.tsx:42-53 | the number of the job's applications, or 0 when the count query fails |
| JobDetail.HasApplied | src/pages/JobDetail.tsx:55-69 | "applied" needs a signed-in user with an application row to the job |
| JobDetail.ButtonFor | src/pages/JobDetail.tsx:182-186 | "Already Applied" exactly when applied; the owner's notice exactly for the owner who has not applied; the dialog otherwise |
| JobDetail.WhatsAppLink | src/pages/JobDetail.tsx:173 | "https://wa.me/" followed by exactly the digits of the number, every one of them, in order |
| JobDetail.WhatsAppIgnoresFormatting | src/pages/JobDetail.tsx:173 | numbers with the same digits give the same link |
| JobDetail.ApplicationRowFor | src/pages/JobDetail.tsx:78-82 | this job, the caller, and a null cover letter when it is empty |
| JobDetail.ApplyAsWritten | src/pages/JobDetail.tsx:71-91 | no user: login redirect and nothing written; a refused insert writes nothing; otherwise the application is appended without looking at `hasApplied` |
| JobDetail.ApplicationsAfterInsert | src/pages/JobDetail.tsx:78-82 | an application of the user adds one to their applications |
| JobDetail.SecondApplicationHidesApplied | src/pages/JobDetail.tsx:55-69 | after one application the page shows "applied"; after a second it no longer does |
| JobDetail.ApplyRaisesCount | src/pages/JobDetail.tsx:42-53 | an accepted application raises the applicant count by one |
| JobDetail.OneApplicationEachBounds | src/pages/JobDetail.tsx:55-69 | with one application per user and job, a user has at most one row per job |
| JobDetail.AppliedIffApplicationRow | src/pages/JobDetail.tsx:55-69 | with one application per user and job, "applied" holds exactly when the user has an application row |
| JobDetail.Apply | src/pages/JobDetail.tsx:71-91 | as intended: a repeated application is refused, one application per user and job is kept, and after success the page shows "applied" |
| NewPost.Set | src/pages/NewCommunityPost.tsx:68 | `update(key, value)` changes that field only |
| NewPost.SetCurrentValue | src/pages/NewCommunityPost.tsx:68 | writing a field's own value changes nothing |
| NewPost.SetTwice | src/pages/NewCommunityPost.tsx:68 | the later of two updates of a field wins |
| NewPost.PostRowFor | src/pages/NewCommunityPost.tsx:47-57 | the caller as author; empty category and event fields stored as null; a rating exactly for reviews |
| NewPost.StoredPostRoundTrip | src/pages/NewCommunityPost.tsx:47-57 | reading the row back gives the form, except a non-review's rating, which reads as 0 |
| NewPost.PostFormState.constructor | src/pages/NewCommunityPost.tsx:24-33 | a discussion with rating 0 and empty fields |
| NewPost.PostFormState.Update | src/pages/NewCommunityPost.tsx:68 | the form becomes `Set` of the old one |
| NewPost.PostFormState.SetRating | src/pages/NewCommunityPost.tsx:120 | the star buttons set the rating only |
| NewPost.PostFormState.Submit | src/pages/NewCommunityPost.tsx:35-66 | no user, or a missing title or content, or a refused insert writes nothing; otherwise exactly the post row is appended |
| PostJob.Set | src/pages/PostJob.tsx:55 | `update(key, value)` changes that field only |
| PostJob.SetCommutes | src/pages/PostJob.tsx:55 | updates of two different fields commute |
| PostJob.JobRowFor | src/pages/PostJob.tsx:41-44 | the poster's id and the new id |
| PostJob.StoredJobRoundTrip | src/pages/PostJob.tsx:41-44 | every form field is stored unchanged: reading the row back gives the form |
| PostJob.JobFormState.constructor | src/pages/PostJob.tsx:19-30 | a "full-time" job with empty fields |
| PostJob.JobFormState.Update | src/pages/PostJob.tsx:55 | the form becomes `Set` of the old one |
| PostJob.JobFormState.Submit | src/pages/PostJob.tsx:32-53 | no user, or a missing title or company, or a refused insert writes nothing; otherwise exactly the job row is appended |

## Findings

| source | as written | input that shows it | evidently intended | confidence | as-written member | corrected member |
|---|---|---|---|---|---|---|
| src/pages/DashboardNotifications.tsx:33 | "Mark all as read" updates only rows whose `is_read` is `false`, but the unread count treats `null` as unread (line 38) | a notification of the user with `is_read = null` (the column is nullable) | every notification counted as unread is marked read, so the count drops to 0 and the button disappears | medium; not executed | Notifications.NullFlagSurvivesMarkAll | Notifications.AllReadClearsCount |
| src/pages/JobDetail.tsx:71-91 | `handleApply` inserts without consulting `hasApplied`, and the `hasApplied` query is not refreshed after applying, so "Apply Now" stays available | the same signed-in user submits the dialog twice during one visit; the lookup at lines 59-64 then finds two rows and fails, and the page offers "Apply Now" again | one application per user and job, with "Already Applied" shown after it | low (a uniqueness rule in the store, not visible here, would refuse the second insert); not executed | JobDetail.SecondApplicationHidesApplied | JobDetail.Apply |

## Left out

- Network, authentication and caching: query invalidation and refetching, loading and skeleton states, toasts and navigation targets. The pages' list orderings by `created_at` are also left out, because the rows carry no creation time.
- Floating point: `parseFloat` is modelled as an optional integer, and `toLocaleString` and `encodeURIComponent` are uninterpreted function parameters.
- Dates: `toISOString` and `formatDistanceToNow`. Expiries are kept as millisecond integers.
- The clock: each of the two separate `Date.now()` readings in the boost handler is a parameter of its own (`now`, `refNow`).
- Randomness: the `Math.random` base-36 suffix of the payment reference is a parameter.
- Case mapping: only ASCII letters are mapped. Unicode case rules are not modelled.
- Static page content: the sample posts and events of the community feed, the mock marketplace listings and jobs, and the style tables. The community page's tabs are left out because they are not wired to the filter. The marketplace's "Featured only" switch is left out because it is not wired to the filter chain either.
- Marketplace.SortInPlace: states sortedness by the comparator's key and permutation, but not the stability of `Array.prototype.sort`.
- Carousel.Gallery.constructor: requires at least one image. The pages only show the arrows when there are images, and `% 0` would give `NaN`.
- Boost.HandlePayment: a route type other than "listing" is treated as a business, exactly as the source does. The source's non-null assertion on the plan is modelled as the `PlanMissing` outcome, which writes nothing.
- Dashboard.IsActive: the prefix test is not segment-aware ("/dashboard/listingsX" highlights "My Listings"), as in the source.
- NewListing.Submit: both branches of the featured check navigate to the same route, so the switch only affects the stored row.
- JobDetail.ButtonFor: the dialog's own "log in" hint for a visitor who is not signed in is not modelled separately. `ApplyAsWritten` covers its redirect.
- NewPost.PostRowFor and NewBusiness.BusinessRowFor: column defaults filled in by the store (counters, timestamps, views) are left as null.
