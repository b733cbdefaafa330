# hair-booking: a verified model of the booking store

hair-booking is a salon-booking web backend. Customers sign up, browse salons, their
branches and beds, and book or cancel reservations. Salon owners and salon users run
their own salon's catalogue: branches, beds, therapies and media. Administrators create
salon users, promote customers to salon owners and delete accounts.

Every handler of the system applies one rule to a small relational state. This project
models that state as an in-memory booking store. `Store.Db` is a class with one
sequence of rows per table (users, salons, salon media, salon beds, reservations,
branches, branch beds, therapies, branch reservations) and one id counter per table.
Each handler is a method over that store:

- it checks a guard;
- it then filters, appends, updates or removes rows;
- its `modifies` clause names only the tables it touches.

Each method is proved against pure specification functions. Lemmas about those
functions state the promises the handlers make: ownership scoping, "nothing else
changes", idempotence, uniqueness, ordering, page arithmetic and round trips.

The system exists in two revisions, and the model keeps both forms.

- **The service revision** (`src/service/...`) talks to PostgREST.
  - A `.single()` update or delete takes effect only when exactly one row matches. Otherwise the store answers with an error and changes nothing.
  - Beds belong to salons.
  - Reservations name a bed and a period.
- **The router revision** (`src/router/...`) runs SQL through sqlx.
  - `fetch_one` with no row gives the "no rows returned" error.
  - `INSERT … SELECT`, `DELETE … USING` and `UPDATE … FROM` act on every row their join selects.
  - Beds belong to branches.
  - Reservations name a therapy and a branch and have no end time.

The role is `SALON_USER` in one revision and `SALON_OWNER` in the other.

Replies are modelled as follows.

- `Outcome<T>` is one of:
  - `Ok(data)`: a G0001 reply carrying data.
  - `General(status, message)`: a data-less reply with a status and an optional text. An application error, which the error layer renders as a G0004 reply, is written `General(BadRequest, Some(text))`. A data-less success is `General(OK, None)`.
  - `Crash(reason)`: a panic.
- The handlers of `src/router/admin/user.rs`, `src/router/general/account.rs` and `src/router/public/account.rs` return the envelope itself: `Result<GeneralResponse<T>>`. There `Failure(text)` is the application error.

Some things the model does not compute. Each is a parameter of the operation that uses it:

- password hashing and verification;
- token signing and decoding;
- JSON serialisation of store errors;
- the clock;
- the availability RPC;
- the store's refusal of a statement for a reason that the rows do not decide, such as a column type or constraint of the schema, which is not shown. This is a parameter only of the handlers whose refusal the model can name: `SignUp.SignUp`, `PublicAccount.SignUp`, `CreateSalonUser.CreateSalonUser`, `CreateReservation.CreateReservation`, `CustomerReservation.AddReservation`, `CreateSalon.CreateSalon`, `CreateSalonBed.CreateSalonBed`, `CreateSalonMedia.CreateSalonMedia`, `GeneralAccount.UpdateProfile` and `UpdateProfile.UpdateProfile`. The other handlers take the store to accept every statement that the model does not refuse itself (see "## Left out").

Identifiers are natural numbers and timestamps are integers.

## Model

| member | source | states |
|---|---|---|
| Database.RoleTextRoundTrip | src/model/database.rs:76-122 | helper for the role filters: parsing a role's display string (its serde form) gives the role back, and no other string parses to that role |
| Database.RoleTextInjective | src/model/database.rs:113-122 | distinct roles display as distinct strings |
| Database.ReservationStatusTextRoundTrip | src/model/database.rs:100-140 | helper for the status comparison: WAITING, DONE and CANCEL display as their names, and parsing the display gives the status back |
| Database.TextsInjective | src/model/database.rs:70-140 | helper for the status comparison: the gender, general-status, media-type and reservation-status displays are injective |
| Database.OutputHidesPassword | src/model/database.rs:142-153 | `UserOutput` omits the password hash (with date of birth, salon and update time); for users agreeing on those three, the outputs are equal exactly when the users differ at most in the password hash |
| Response.IntoResponse | src/model/response.rs:64-72 | the HTTP reply always has status 200, keeps the body and the headers, and appends `content-type: application/json` after them |
| Response.MessageTableCodes | src/model/response/response_message.rs:6-17 | the table has exactly the eight codes G0001..G0005 and S0001..S0003; a body for any other code carries "Undefied!", and one for a listed code does not |
| Response.MessagesIdentifyCodes | src/model/response/response_message.rs:8-16 | no two codes share a message |
| Response.ConstructorsAgree | src/model/response.rs:30-61 | `new_error` is code G0004 with the caller's text, no data and no headers; `new_error("Bad request!")` equals `new_general("G0004")`; `ok_with_data` is `new` with code G0001 and message "Successfully!" |
| Utils.TotalPagesIsCeiling | src/utils.rs:22-28 | for a non-negative total and a positive limit, `total_pages` is the least page count covering the total |
| Utils.TotalPagesOfFullPages | src/utils.rs:22-28 | `k * limit` rows make exactly `k` pages |
| Utils.ExtractPageAndLimit | src/utils.rs:30-37 | the page is at least 1: a missing or non-positive page becomes 1, and a positive page is kept; the limit is kept, or becomes 9999 when missing |
| Utils.ExtractIsIdempotent | src/utils.rs:30-37 | normalising an already normalised page and limit changes nothing |
| Utils.GetQueryFromTo | src/utils.rs:13-20 | fails with "page and limit must greater than 0." exactly when page or limit is 0; both indices are `usize` values; while `page * limit` stays within 2^64 the window is `[(page - 1) * limit, page * limit - 1]`, exactly `limit` indices |
| Utils.WindowWrapsAround | src/utils.rs:17-18 | the `usize` arithmetic wraps: page 2^32 + 1 of 2^32 rows is the window `[0, 2^32 - 1]` of page 1 |
| Utils.PagesTile | src/utils.rs:13-20 | while `(p + 1) * limit` stays within 2^64, consecutive pages are adjacent windows (page `p` ends right before page `p + 1` starts, at `p * limit`), and page 1 starts at 0 |
| Utils.AccumulateAppend | src/utils.rs:9 | parsing a `usize` reads one more digit as `10 * v + d` and fails with the overflow error past 2^64 - 1 |
| Utils.ParseNatToString | src/utils.rs:9 | parsing the decimal text of a number up to 2^64 - 1 gives the number back |
| Utils.TotalFromContentRange | src/utils.rs:3-11 | reading the total from a `Content-Range` header `first-last/count` that the store sent gives `count` back |
| Utils.NoSlashNoTotal | src/utils.rs:3-11 | a header value without `/` is answered "No total found." |
| Claim.ExpiresThirtyDaysLater | src/model/claim.rs:88-94 | `exp` is the current time in whole seconds plus 2,592,000 (30 days) |
| Claim.BuildClaims | src/model/claim.rs:77-102 | a missing id fails with "id not found in db!"; otherwise a missing username fails with "username not found in db!"; otherwise the claims carry the user's id and username, no role, and the 30-day expiry |
| Claim.CreateTokenFor | src/model/claim.rs:77-109 | a token is made exactly when the user has an id and a username and signing the claims succeeds |
| Claim.FromRequestParts | src/model/claim.rs:34-62 | a missing bearer header or a token that does not decode becomes a G0004 reply carrying the error's text; otherwise the decoded claims are extracted, and only then |
| Layer.BearerTokenIff | src/layer.rs:31-46 | the header yields a token exactly when its value starts with "Bearer ", and the token is the rest; the header's token wins, and the `token` cookie is used only when the header yields none |
| Layer.AuthenticateIff | src/layer.rs:48-69 | a request passes exactly when a token was selected, it decodes, and a stored user matches both the id and the username; the claims passed on carry that user's stored role |
| Layer.GatesExclusive | src/layer.rs:73-107 | each gate passes claims unchanged exactly when the role is its own role; at most one gate passes; a missing or SALON_USER role passes none |
| Availability.OverlapsSymmetric | src/router/public/salon_bed.rs:57-58 | SQL `OVERLAPS` (section 8.11 of ISO/IEC 9075:1992), with its NULL handling, does not depend on the order of the two periods |
| Availability.OverlapsHalfOpen | src/router/public/salon_bed.rs:57-58 | for well-formed periods `OVERLAPS` is `a.from < b.to && b.from < a.to` |
| Availability.TouchingPeriodsDoNotOverlap | src/router/public/salon_bed.rs:57-58 | a period ending when another starts does not overlap it |
| Availability.OpenEndedPeriod | src/router/public/salon_bed.rs:57-58 | a reservation with a NULL end overlaps a requested period exactly when its start lies strictly inside it |
| Availability.StatusIsWaitingIff | src/router/public/salon_bed.rs:56 | the status test is true exactly for WAITING and unknown exactly for a NULL status |
| Availability.NotInTrueIff | src/router/public/salon_bed.rs:52-59 | SQL `x NOT IN (list)` is true exactly when the list is empty, or `x` is not NULL and every entry is non-NULL and different from `x` |
| Availability.FreeIff | src/router/public/salon_bed.rs:52-59 | a bed is free for a period exactly when no WAITING reservation overlapping the period names it, and no such reservation has a NULL bed |
| Availability.NullBedBlocksAll | src/router/public/salon_bed.rs:52-59 | one overlapping WAITING reservation with a NULL bed makes every bed unavailable |
| Availability.BlocksIff | src/router/public/salon_bed.rs:55-58 | for well-formed periods a reservation blocks exactly when it is WAITING and its period overlaps the requested one |
| Availability.AddNonBlocking | src/router/public/salon_bed.rs:52-59 | adding a reservation that does not block the period changes no bed's availability |
| PublicSalonBed.ListBed | src/router/public/salon_bed.rs:13-34 | the listed beds are exactly the stored beds of the branch |
| PublicSalonBed.AvailableBed | src/router/public/salon_bed.rs:69-85 | a period with `from >= to` is refused with "timeTo must be greater than timeFrom!" before any query; otherwise only beds of the branch are returned |
| PublicSalonBed.AvailableBedIff | src/router/public/salon_bed.rs:48-60 | with well-formed reservations whose blocking rows name a bed, a bed of the branch is returned exactly when no WAITING reservation on it overlaps the period |
| PublicSalonBed.NullBedEmptiesAnswer | src/router/public/salon_bed.rs:52-59 | an overlapping WAITING reservation with a NULL bed empties the answer |
| ReservationView.PresentCarriesSalon | src/service/reservation/all_user/create_reservation.rs:76-79 | a reply keeps the reservation; its `salon_id` is the salon of the embedded bed when the bed exists, and NULL when there is no bed |
| ReservationView.CopySalonIds | src/service/reservation/all_user/list_reservation_history.rs:53-57 | the loop sets each reply's `salon_id` from its embedded bed, when present, and changes nothing else |
| CreateReservation.CreateReservation | src/service/reservation/all_user/create_reservation.rs:38-85 | `from >= to` is refused with "time to must be greater than time from"; a bed the availability call does not return as exactly one row is refused with "This bed already booked at this time."; an insert fault gives BAD_REQUEST with the store's text. Exactly otherwise one WAITING row is appended, owned by the caller and carrying the input bed, times and comment; every refusal leaves the table unchanged. When availability is the bed query of the public listing, a table with no double booking keeps none |
| CreateReservation.NoDoubleBooking | src/service/reservation/all_user/create_reservation.rs:52-62 | when availability is the bed query of the public listing, a booking that would overlap a stored WAITING reservation of the same bed, anywhere in the table, is refused |
| CreateReservation.CreateKeepsNoOverlap | src/service/reservation/all_user/create_reservation.rs:52-75 | for a table in which no two WAITING reservations of one bed have intersecting periods, appending a booking the availability query admits keeps that so |
| CreateReservation.DisjointBookingKeepsAdmission | src/service/reservation/all_user/create_reservation.rs:52-62 | a booking does not prevent a booking of a period that does not overlap it |
| CancelReservation.CancelReservation | src/service/reservation/all_user/cancel_reservation.rs:23-49 | when exactly one row has that id and the caller as owner, that row becomes CANCEL, whatever its status was, and is returned; otherwise the reply is "This reservation of this user already canceled or not found." and nothing changes; a table with no double booking keeps none |
| CancelReservation.CancelKeepsNoOverlap | src/service/reservation/all_user/cancel_reservation.rs:28-32 | cancelling keeps a table in which no two WAITING reservations of one bed have intersecting periods in that state |
| CancelReservation.CancelTouchesOnlyTarget | src/service/reservation/all_user/cancel_reservation.rs:28-32 | only the caller's row with that id changes, and only in its status |
| CancelReservation.CancelIdempotent | src/service/reservation/all_user/cancel_reservation.rs:28-32 | cancelling twice leaves the table as cancelling once |
| CancelReservation.CancelledNeverBlocks | src/service/reservation/all_user/cancel_reservation.rs:32 | a cancelled reservation makes no bed unavailable |
| CancelReservation.CancelKeepsFree | src/service/reservation/all_user/cancel_reservation.rs:28-32 | a free bed stays free after a cancellation |
| CancelReservation.CancelFreesTheSlot | src/service/reservation/all_user/cancel_reservation.rs:28-32 | when the cancelled booking is the only waiting reservation holding a bed over a period, the bed is free for that period after the cancel |
| CancelReservation.CancelReadmits | src/service/reservation/all_user/cancel_reservation.rs:28-32 | after that cancel, a new booking of the same bed for the same period is admitted by the availability answer |
| ListReservationHistory.HistoryIsOwnedAndOrdered | src/service/reservation/all_user/list_reservation_history.rs:39-43 | the history is a permutation of the caller's reservations, ordered by `time_from` descending (NULLs first) |
| ListReservationHistory.HistoryPageIsOwnedAndOrdered | src/service/reservation/all_user/list_reservation_history.rs:39-45 | every row of a page is the caller's, and the page keeps the descending order |
| ListReservationHistory.HeaderCarriesCount | src/service/reservation/all_user/list_reservation_history.rs:44-49 | the total read from the store's `Content-Range` is the number of the caller's reservations |
| ListReservationHistory.QueryHistory | src/service/reservation/all_user/list_reservation_history.rs:39-49 | the store answers the page window of the history with embedded beds; the caller's count is read from its Content-Range header, and an answer without that header gives "No content-range header found." |
| ListReservationHistory.PresentAll | src/service/reservation/all_user/list_reservation_history.rs:52-57 | each embedded row is turned into its reply, in order |
| ListReservationHistory.ListWindow | src/service/reservation/all_user/list_reservation_history.rs:49-72 | an answer without Content-Range gives "No content-range header found."; otherwise the reply carries the caller's count and `total_pages(count, limit)`, and the window's rows when the query succeeded or none when it failed |
| ListReservationHistory.ListReservationHistory | src/service/reservation/all_user/list_reservation_history.rs:31-73 | a refused window gives "page and limit must greater than 0."; an answer without Content-Range gives "No content-range header found."; otherwise the reply is the normalised page of the caller's history, with total and pages |
| ListReservationHistory.PageWindowIff | src/service/reservation/all_user/list_reservation_history.rs:36-37 | with `usize` query parameters the window is refused exactly when the limit given is 0; otherwise, while `page * limit` stays within 2^64, it is `[(page - 1) * limit, page * limit - 1]` for the normalised page (0 or absent becomes 1) and limit (absent becomes 9999) |
| Query.OrderBySorted | src/router/customer/reservation.rs:90 | ORDER BY returns a permutation of its rows, ordered on the key with PostgreSQL's NULL placement |
| Query.OffsetLimit | src/router/customer/reservation.rs:91-92 | OFFSET/LIMIT returns the rows from the offset on, at most `limit` of them, in order |
| Query.BoundOffsetLimit | src/router/customer/reservation.rs:91-92 | a negative OFFSET or LIMIT is refused by the database with its message; otherwise the window is taken |
| Query.CollectWithTotal | src/router/customer/reservation.rs:115-125 | the mapping loop decodes every row in order and keeps the window count of the first row, or none for an empty page |
| Store.AppendKeepsUnique | src/router/public/account.rs:41-61 | appending a user whose name is not taken keeps usernames unique |
| Store.InsertUser | src/service/account/sign_up.rs:46-54 | the store refuses a taken username with code 23505 and refuses on any fault; otherwise it appends the row |
| Store.InsertKeepsUnique | src/service/account/sign_up.rs:46-54 | a stored insert keeps usernames unique |
| CustomerReservation.AddReservation | src/router/customer/reservation.rs:46-75 | a therapy and a branch not of one salon are refused with "therapy and salon branch are not in same salon!"; an insert fault gives its text; exactly otherwise one row is appended for the caller and the reply is OK; a refusal changes nothing |
| CustomerReservation.AddedReservationIsConsistent | src/router/customer/reservation.rs:51-72 | a stored reservation names the caller and a therapy and a branch of the same salon |
| CustomerReservation.CustomerHistoryIsOwnedAndOrdered | src/router/customer/reservation.rs:85-90 | the listing is a permutation of the caller's reservations, ordered by `time_from` descending |
| CustomerReservation.ListReservation | src/router/customer/reservation.rs:103-134 | the reply is the offset/limit window of the caller's ordered reservations, each joined with its therapy, branch and salon; `total` is the caller's count, or 0 for an empty page |
| CustomerReservation.PastTheEndReportsNothing | src/router/customer/reservation.rs:115-127 | an offset past the caller's last reservation gives an empty page with total 0 |
| PublicAccount.SignUp | src/router/public/account.rs:37-81 | a taken username is answered S0001 and nothing is stored; a hashing or insert failure is an application error and stores nothing; otherwise exactly one row with the hash of the password is appended, and the reply carries the account and a token for it; usernames stay unique |
| PublicAccount.SignIn | src/router/public/account.rs:98-135 | an unknown username is answered S0002; for the first user with the name, a password that does not verify is answered S0003 with no token, one that verifies is answered G0001 with the token in the body and in the `token` cookie (path `/`, secure, HTTP-only) and the user's public fields, and a bcrypt or token failure is passed on; a G0001 reply is given only for a stored user whose password verifies |
| PublicAccount.SignInAfterSignUp | src/router/public/account.rs:37-135 | signing in with the name and password just signed up with yields the reply for the new user |
| SignUp.RefusalMessage | src/service/account/sign_up.rs:67-73 | store code 23505 becomes "username already existed."; any other error becomes its serialised form |
| SignUp.SignUp | src/service/account/sign_up.rs:33-75 | a hashing failure is refused; otherwise the row with role CUSTOMER and the hashed password is inserted or refused with the mapped message; success replies with the account and a token; usernames stay unique |
| SignUp.SignUpDecisions | src/service/account/sign_up.rs:38-72 | the stored row has role CUSTOMER and the hash, never the client's values; a taken name is refused with "username already existed." |
| CreateSalonUser.CreateSalonUser | src/service/user/admin/create_salon_user.rs:41-69 | the row is inserted with role SALON_USER and the hashed password and returned without the password; a refusal gives BAD_REQUEST with the store's text and changes nothing |
| CreateSalonUser.CreatedSalonUser | src/service/user/admin/create_salon_user.rs:46-64 | the created row has role SALON_USER and the hash, and its reply does not depend on the hash |
| AdminUser.UserListingOrdered | src/router/admin/user.rs:16-22 | a page of users is ordered by id and holds stored users only |
| AdminUser.ListUser | src/router/admin/user.rs:36-63 | a database refusal of the window is the application error with the database's text; otherwise the reply is the page of users as `UserOutput`s, with `total` the number of users, or null for an empty page |
| AdminUser.CustomerToSalonOwner | src/router/admin/user.rs:84-108 | an unknown id fails and changes nothing; a role other than CUSTOMER is answered "User role must be customer!" and changes nothing; otherwise, also for a NULL role, one salon is created and the user points to it with role SALON_OWNER |
| AdminUser.PromotionTouchesOnlyTheUser | src/router/admin/user.rs:67-76 | only the rows with that id change, and only in salon and role |
| AdminUser.PromotedUserIsOwner | src/router/admin/user.rs:67-76 | after the promotion the user's requests pass the salon-owner gate, and a second promotion is refused |
| GeneralAccount.GetProfile | src/router/general/account.rs:22-31 | the reply is the caller's row without password; with no such row the reply is the "no rows returned" error |
| GeneralAccount.UpdateProfile | src/router/general/account.rs:46-77 | a statement the server refuses changes nothing and gives the database error; otherwise the caller's row is patched with COALESCE, and as the UPDATE returns no row the reply is the "no rows returned" error |
| GeneralAccount.ApplyProfileFields | src/router/general/account.rs:46-53 | each field becomes the input when given and keeps its value otherwise; username, password and role are never touched |
| GeneralAccount.UpdateProfileIdempotent | src/router/general/account.rs:46-53 | applying the same input twice gives the rows of applying it once |
| GeneralAccount.EmptyProfileChangesNothing | src/router/general/account.rs:46-53 | an all-empty input leaves the table unchanged |
| DeleteUser.DeletableIff | src/service/user/admin/delete_user.rs:28-35 | a row is deletable exactly when it has that id and role SALON_USER or CUSTOMER |
| DeleteUser.DeleteUser | src/service/user/admin/delete_user.rs:24-48 | when exactly one row is deletable it is removed and returned; otherwise the reply is "user_id is invalid!" and nothing changes |
| DeleteUser.DeleteRemovesOnlyTarget | src/service/user/admin/delete_user.rs:28-39 | the deletion removes exactly the matched row, which has that id and role SALON_USER or CUSTOMER |
| DeleteUser.DeleteKeepsAdmins | src/service/user/admin/delete_user.rs:31-35 | no ADMIN is ever deleted |
| CustomerToSalonUser.Promote | src/service/account/customer_to_salon_user.rs:23-44 | with exactly one row for the caller, only its role changes, to SALON_USER, and the reply is the account with a new token; otherwise INTERNAL_SERVER_ERROR and nothing changes |
| CustomerToSalonUser.CustomerToSalonUser | src/service/account/customer_to_salon_user.rs:15-45 | claims whose role is not CUSTOMER are refused with "This account is not customer role." and nothing changes; otherwise the promotion |
| CustomerToSalonUser.IssuedTokensAreRefused | src/service/account/customer_to_salon_user.rs:19-22 | claims made by `create_token` never pass the guard |
| CustomerToSalonUser.CustomerToSalonUserChecked | src/service/account/customer_to_salon_user.rs:15-45 | the guard reads the stored role: a caller not stored as CUSTOMER is refused and nothing changes; a stored customer is promoted |
| CustomerToSalonUser.StoredCustomerIsPromotedOnce | src/service/account/customer_to_salon_user.rs:19-29 | a stored customer holding a token passes the stored-role guard, and after the promotion no longer does |
| UpdateProfile.UpdateProfile | src/service/account/update_profile.rs:44-64 | with exactly one row for the caller, no clash of the new username and no other refusal of the store (such as a `date_of_birth` text the `date` column cannot parse), the row is patched and returned without password; otherwise INTERNAL_SERVER_ERROR and nothing changes |
| UpdateProfile.PatchFields | src/service/account/update_profile.rs:23-36 | each given field is written and each missing one is kept; `updated_at` is always the current time; id, password, role and salon never change |
| UpdateProfile.EmptyPatchOnlyStamps | src/service/account/update_profile.rs:49-57 | an empty patch only stamps `updated_at` |
| UpdateProfile.PatchIdempotent | src/service/account/update_profile.rs:51-57 | the same patch at the same time applied twice gives the rows of applying it once |
| UpdateProfile.UpdateKeepsUnique | src/service/account/update_profile.rs:51-57 | an admitted patch keeps usernames unique |
| PublicSalon.ListSalon | src/router/public/salon.rs:35-69 | the reply is the window at `offset = (page - 1) * limit` of the salons ordered by id, with `total` the number of salons (0 for an empty page) and `pages = total_pages(total, limit)`; a database refusal gives its text, and a zero limit panics |
| PublicSalon.ListingFailsIffNegativeLimit | src/router/public/salon.rs:39-46 | after the normalisation the query is refused exactly when the limit is negative |
| PublicSalon.ListingIsOrderedWindow | src/router/public/salon.rs:18-22 | a page holds at most `limit` stored salons, ordered by id |
| PublicSalon.NonEmptyPageIsCounted | src/router/public/salon.rs:48-61 | a page that is not empty is within the reported page count |
| PublicSalon.SalonDetail | src/router/public/salon.rs:111-120 | an unknown salon is the "no rows returned" error; otherwise the salon's columns with an empty branch list |
| PublicSalon.SalonDetailWithBranches | src/router/public/salon.rs:90-101 | an unknown salon is the "no rows returned" error; otherwise the salon's columns |
| PublicSalon.DetailListsExactlyTheBranches | src/router/public/salon.rs:90-101 | the branch list holds exactly the stored branches of that salon |
| PublicSalon.BranchesAreLost | src/router/public/salon.rs:86-95 | a salon with one branch is listed with no branch as written, and with that branch when the column name matches |
| SalonOwnerBranch.BranchRows | src/router/salon_owner/salon_branch.rs:16-28 | one branch per selected user, each with the user's salon and the input address |
| SalonOwnerBranch.AddBranch | src/router/salon_owner/salon_branch.rs:46-58 | the branches selected through the caller's row are appended and the first is returned; with no caller row nothing is added and the reply is the "no rows returned" error |
| SalonOwnerBranch.AddBranchStampsCallerSalon | src/router/salon_owner/salon_branch.rs:16-28 | with one caller row, exactly one branch is added, in the caller's salon |
| SalonOwnerBranch.DeleteBranch | src/router/salon_owner/salon_branch.rs:80-92 | the branches with that id in the caller's salon are removed; with none the reply is the "no rows returned" error |
| SalonOwnerBranch.DeleteBranchRemovesOnlyOwned | src/router/salon_owner/salon_branch.rs:62-69 | every other branch stays, and every removed one had that id and the caller's non-NULL salon |
| SalonOwnerBed.JoinOwned | src/router/salon_owner/salon_bed.rs:28-31 | the join yields only pairs of that branch and a caller row in the branch's salon |
| SalonOwnerBed.JoinOwnedIff | src/router/salon_owner/salon_bed.rs:28-31 | the join is not empty exactly when the branch exists in the caller's salon |
| SalonOwnerBed.BedRows | src/router/salon_owner/salon_bed.rs:20-33 | one bed per joined pair, each on the pair's branch with the input name |
| SalonOwnerBed.AddBed | src/router/salon_owner/salon_bed.rs:49-64 | a branch outside the caller's salon is refused with "Branch not found or not your branch!" and nothing is added; otherwise the beds are appended and the first returned |
| SalonOwnerBed.AddedBedsAreInTheBranch | src/router/salon_owner/salon_bed.rs:20-33 | every added bed is on the requested branch, which is in the caller's salon |
| SalonOwnerBed.DeleteBed | src/router/salon_owner/salon_bed.rs:85-98 | the beds with that id on a branch of the caller's salon are removed; with none the reply is "Bed not found or not your salon bed!" |
| SalonOwnerBed.DeleteBedRemovesOnlyOwned | src/router/salon_owner/salon_bed.rs:68-76 | every other bed stays, and every removed one had that id and a branch of the caller's salon |
| SalonOwnerTherapy.TherapyRows | src/router/salon_owner/therapy.rs:23-33 | one therapy per selected user, in the user's salon, with the input fields |
| SalonOwnerTherapy.AddTherapy | src/router/salon_owner/therapy.rs:42-57 | the therapies selected through the caller's row are appended and the first is returned; with no caller row nothing changes |
| SalonOwnerTherapy.AddTherapyStampsCallerSalon | src/router/salon_owner/therapy.rs:23-33 | with one caller row, exactly one therapy is added, in the caller's salon |
| SalonOwnerTherapy.UpdateReturning | src/router/salon_owner/therapy.rs:61-73 | the selected therapies are overwritten, NULL for a missing field; the first is returned, or the "no rows returned" error |
| SalonOwnerTherapy.UpdateTherapy | src/router/salon_owner/therapy.rs:82-99 | as written: the therapies whose id equals the caller's salon id are overwritten |
| SalonOwnerTherapy.TherapyIdComparedWithSalonId | src/router/salon_owner/therapy.rs:69-71 | as written, the owner's own therapy is not updatable, while another salon's therapy whose id equals the owner's salon id is |
| SalonOwnerTherapy.UpdateOwnTherapy | src/router/salon_owner/therapy.rs:61-73 | corrected: the therapy with that id in the caller's salon is overwritten |
| SalonOwnerTherapy.OwnUpdateStaysInSalon | src/router/salon_owner/therapy.rs:63-71 | the corrected update changes only the caller's therapy with that id, only in the four input fields, and the therapy stays in the salon |
| SalonOwnerTherapy.DeleteTherapy | src/router/salon_owner/therapy.rs:103-131 | as written: the therapy with that id in the caller's salon is removed, and the answer is that row decoded from `RETURNING *` under `USING users`, so its `id` is the caller's; with none the reply is the "no rows returned" error |
| SalonOwnerTherapy.DeleteAnswersCallerId | src/router/salon_owner/therapy.rs:103-110 | the as-written answer carries the caller's id, and equals the removed therapy exactly when the therapy id equals the caller's id |
| SalonOwnerTherapy.DeleteOwnTherapy | src/router/salon_owner/therapy.rs:103-131 | with `RETURNING therapies.*`, the matching therapy is removed and answered as stored; with none the "no rows returned" error |
| SalonOwnerTherapy.DeleteOwnAnswersRemoved | src/router/salon_owner/therapy.rs:103-110 | the corrected answer is a stored therapy with the requested id, in the caller's salon, and no longer in the table |
| SalonOwnerTherapy.DeleteTherapyRemovesOnlyOwned | src/router/salon_owner/therapy.rs:103-110 | every other therapy stays, and every removed one had that id and the caller's salon |
| SalonOwnerSalon.UpdateSalon | src/router/salon_owner/salon.rs:72-88 | the caller's salon gets the six input columns, NULL for a missing one; the UPDATE returns no row, so the reply is the "no rows returned" error |
| SalonOwnerSalon.UpdateSalonScope | src/router/salon_owner/salon.rs:40-50 | only the caller's salon changes, only in those six columns |
| SalonOwnerSalon.UpdateSalonIdempotent | src/router/salon_owner/salon.rs:40-50 | repeating the update changes nothing more |
| CreateSalonMedia.CreateSalonMedia | src/service/salon/salon_user/create_salon_media.rs:40-76 | without exactly one salon with that id owned by the caller the reply is "salon not found or not your salon." and nothing changes; an insert fault gives INTERNAL_SERVER_ERROR; otherwise one media row of that salon is appended and returned |
| CreateSalonMedia.OwnedSalonPasses | src/service/salon/salon_user/create_salon_media.rs:47-58 | with unique salon ids, a salon owned by the caller passes the ownership test |
| CreateSalonBed.CreateSalonBed | src/service/salon_bed/salon_user/create_salon_bed.rs:34-71 | without an owned salon the reply is "salon not found of not your salon." and nothing changes; an insert fault gives BAD_REQUEST with its text; otherwise one bed of the path salon is appended and returned |
| CreateSalonBed.StoredBedIsInCallersSalon | src/service/salon_bed/salon_user/create_salon_bed.rs:40-53 | a stored bed belongs to a salon of the caller |
| UpdateSalon.UpdateSalon | src/service/salon/salon_user/update_salon.rs:40-63 | the owned salon with that id is patched and returned; otherwise "Nothing changed." with NOT_MODIFIED and nothing changes |
| UpdateSalon.PatchFields | src/service/salon/salon_user/update_salon.rs:17-29 | given fields are written and missing ones kept; the address is always written; id, owner, status and creation time never change |
| UpdateSalon.OtherSalonsUnchanged | src/service/salon/salon_user/update_salon.rs:47-51 | salons with another id or owner are unchanged |
| UpdateSalon.PatchIdempotent | src/service/salon/salon_user/update_salon.rs:47-54 | patching twice gives the rows of patching once |
| DeleteSalon.DeleteSalon | src/service/salon/salon_user/delete_salon.rs:22-43 | the owned salon with that id is removed and returned; otherwise "salon_id for this user not found!" and nothing changes |
| DeleteSalon.DeleteRemovesOnlyOwnSalon | src/service/salon/salon_user/delete_salon.rs:27-34 | exactly the matched salon is removed, with that id and the caller as owner, and every other salon stays |
| CreateSalon.StampMedias | src/service/salon/salon_user/create_salon.rs:73-77 | the loop gives every media the created salon's id and changes nothing else |
| CreateSalon.MediaRows | src/service/salon/salon_user/create_salon.rs:78-82 | one stored media row per input media, in order, with its salon, url and type |
| CreateSalon.CreateSalon | src/service/salon/salon_user/create_salon.rs:53-91 | a refused salon insert gives BAD_REQUEST with its text and changes nothing; otherwise the salon is stored with the caller as owner and returned, and a non-empty media list is stored with the new salon's id unless the store refuses it |
| CreateSalon.CreatedSalonOwnsItsMedias | src/service/salon/salon_user/create_salon.rs:58-77 | the salon's owner is the caller, and every stored media names the new salon with its input url and type |

## Left out

- HTTP routing, startup, API documentation and the re-export modules are not modelled. They are plumbing.
- Concurrency is not modelled; every operation runs alone. This covers the race between the availability check and the insert of a booking, the race between the role check and the promotion, and the `OnceLock` initialisation of the message table. The message table is a constant map.
- bcrypt, JSON Web Token signing and decoding, serde and cookie building are parameters of the operations. So is the clock (`nowNanos`, `now`).
- The body of the `get_available_salon_beds` RPC is not shown. `CreateReservation.CreateReservation` takes its answer as a parameter. The double-booking lemmas assume it is the bed query of the public listing (`CreateReservation.AvailableSalonBeds`).
- Network failures (`.await?` on the transport), JSON decoding failures and `unwrap_or_default` decoding fallbacks are not modelled. The rows the store returns are taken to decode.
- `delete_bed` decodes the deleted row as a `SalonBranch`. The record of the router revision is not part of this model, so that decode is assumed to succeed.
- A failure to parse the Set-Cookie header value is not modelled. The cookie is a datatype.
- The 64-bit overflow of `(page - 1) * limit` in `list_salon` is not modelled. Integers are unbounded there. `usize` parsing of a header does model its 2^64 - 1 bound.
- Utils.GetQueryFromTo: wraps modulo 2^64, as a release build does; a debug build panics on that overflow instead, which is not modelled. The exact window is stated only while `page * limit` stays within 2^64; past it, `Utils.WindowWrapsAround` shows the wrap.
- ListReservationHistory.PageWindowIff: states the window only while `page * limit` stays within 2^64; past it the window is the wrapped one of `Utils.GetQueryFromTo`.
- `list_reservation_history` passes its `Option<usize>` query parameters to `extract_page_and_limit`, which `src/utils.rs` declares over `i64`; the model follows the handler and treats page and limit as `usize` there, so a negative value is refused by the query extractor before the handler runs.
- A window whose end wraps below its start is taken to select no row (`Query.RangeRows`); whether PostgREST answers such a range with an error is the `AnswerStatus` parameter of `ListReservationHistory.ListReservationHistory`.
- Whitespace inside the PostgREST `or` filter of `delete_user` is taken to be ignored by PostgREST.
- Primary keys are not assumed unique. `FindFirst` takes the first match, and `INSERT … SELECT` adds one row per selected row. The exceptions are the hypothesis of `CreateSalonMedia.OwnedSalonPasses` and the joins of `CustomerReservation.Join`.
- CustomerReservation.ListReservation: reads its three LEFT JOINs with ids as primary keys (`CustomerReservation.Join` takes the first row with the id), so each reservation gives one row. With a repeated therapy, branch or salon id the real join repeats the reservation, and `COUNT(*) OVER ()` counts the repeats; the model does not.
- GeneralAccount.UpdateProfile: the store's refusal of the statement is a parameter. The schema is not shown, so whether `COALESCE($2, date_of_birth)` with a text parameter is refused (a `date` column) is not decided by the model.
- Column defaults come from schema that is not shown. The stored role of a router sign-up is a parameter. Status and timestamps are NULL, and a new reservation is WAITING.
- Foreign-key failures on deletes are not modelled.
- SalonOwnerBranch.AddBranch, SalonOwnerBed.AddBed, SalonOwnerTherapy.AddTherapy, SalonOwnerTherapy.UpdateTherapy, SalonOwnerSalon.UpdateSalon, UpdateSalon.UpdateSalon: a refusal of the statement by a column type or constraint of the schema, which is not shown, is not modelled; each selected row is taken to be accepted.
- The service-revision list handlers depend on a helper that is not shown, and are left out. So are the plain forwarding reads of the service revision and the admin one-liners.
- `delete_salon_bed` and `delete_salon_media` filter on an embedded resource. Their ownership effect depends on PostgREST semantics that are not visible, so they are left out.
- `get_query_from_to` and `total_from_header` appear commented out in `src/utils.rs` but are still called. They are modelled from that text.
- In the service revision the claims come from the bearer token alone; the role is not overwritten there.
- ListReservationHistory.ListWindow: states the total and the page count only when the caller's count fits in 64 bits; a larger count fails the header parse.
- ListReservationHistory.ListReservationHistory: states the reply only when the caller's count fits in 64 bits, since the total is parsed back from the header as a `usize`.
- CustomerToSalonUser.CustomerToSalonUser: on the promoting path states the table effect and that the reply is not a crash; the reply itself is stated by `CustomerToSalonUser.Promote`.
- CustomerToSalonUser.CustomerToSalonUserChecked: states only the refusal and the promotion of a stored customer with one row; the other paths are those of `CustomerToSalonUser.Promote`.
- PublicSalonBed.AvailableBed: its own contract states only that the answer is within the branch's beds; which beds are returned is stated by `PublicSalonBed.AvailableBedIff`, under the hypothesis that blocking rows name a bed and periods are well formed.

## Findings

| source | as written | input that shows it | evidently intended | confidence | as-written member | corrected member |
|---|---|---|---|---|---|---|
| src/router/salon_owner/therapy.rs:71 | the WHERE clause compares `therapies.id` with `users.salon_id` | an owner of salon 5 updates its own therapy 9: no row matches; the same owner updating therapy 5 of salon 7 overwrites it | compare `therapies.salon_id` with `users.salon_id`, as `delete_therapy` does at line 106 | high; not executed | SalonOwnerTherapy.UpdateTherapy, SalonOwnerTherapy.TherapyIdComparedWithSalonId | SalonOwnerTherapy.UpdateOwnTherapy, SalonOwnerTherapy.OwnUpdateStaysInSalon |
| src/router/public/salon.rs:95 | the aggregated branches are named `salon_branchs`, the record field is `salon_branches` (line 86), and `sqlx(default)` (line 75) fills the missing column with an empty list | salon 1 with branch 2: the detail lists no branch | the detail lists the salon's branches | medium (rests on sqlx's default for a missing column); not executed | PublicSalon.SalonDetail, PublicSalon.BranchesAreLost | PublicSalon.SalonDetailWithBranches, PublicSalon.DetailListsExactlyTheBranches |
| src/router/salon_owner/therapy.rs:109 | `RETURNING *` after `USING users` returns the columns of `users` after those of `therapies`, so `id` appears twice and the decoded `Therapy` reads the later one, the caller's id | caller 3 owns salon 5 and deletes its therapy 9: therapy 9 is removed and the answer carries id 3 | answer the removed therapy (`RETURNING therapies.*`, as `update_therapy` writes at line 72) | medium (rests on sqlx reading a repeated column name from its last occurrence; the `Therapy` record is not part of this model); not executed | SalonOwnerTherapy.DeleteTherapy, SalonOwnerTherapy.DeleteAnswersCallerId | SalonOwnerTherapy.DeleteOwnTherapy, SalonOwnerTherapy.DeleteOwnAnswersRemoved |
| src/service/account/customer_to_salon_user.rs:19 | the guard reads `claims.role`, which the extractor takes from the token, and `create_token` always writes role None (src/model/claim.rs:100) | any signed-in customer: the role in the claims is None, so the request is refused | promote a customer by the role stored for the account | low (the comparison does not type-check against the `Claims` of src/model/claim.rs, so the file may belong to another revision); not executed | CustomerToSalonUser.CustomerToSalonUser, CustomerToSalonUser.IssuedTokensAreRefused | CustomerToSalonUser.CustomerToSalonUserChecked, CustomerToSalonUser.StoredCustomerIsPromotedOnce |
