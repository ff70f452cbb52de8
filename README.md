# uchi-bot: the decision and state logic of a tutoring centre's chat bot

The bot (`bot.js`) is a Telegram front end for a children's tutoring centre. Most of
it is menus and marketing copy. This project models the parts that make
decisions or keep state:

- **Galleries.** Two photo galleries, "Фото локации" (camp location, 8 photos) and
  "Экскурсия по центру" (the centre, 5 photos). Each is one process-wide object
  holding a photo list and a cursor. The ⬅️/➡️ buttons move the cursor cyclically.
  (`gallery.dfy`, module `Gallery`, class `Paginator`)
- **Lead capture.** A course button (`trial_<key>`) or the camp booking button
  (`book_camp`) writes a session that waits for a phone contact. The contact handler
  then takes several steps:
  - it works out the request type and the course;
  - it builds the row for the leads sheet;
  - it picks one of four thank-you replies;
  - it clears the session.

  (`leads.dfy`, module `Leads`)
- **Subscriber sheet and broadcast loop.** `/start` adds a user to the subscriber
  sheet unless a row already has that user's id. `sendNewsletter` sends a message to
  every row, counting successes and failures. (`newsletter.dfy`, module `Newsletter`)
- **The `/broadcast` command.** It checks the admin allow-list, extracts the
  message text, picks the optional image and runs the broadcast.
  (`broadcast.dfy`, module `Broadcast`)
- **String helpers.** `text.dfy` (module `Text`) models the JavaScript string
  operations these decisions depend on: `Number.prototype.toString()` on an id,
  `s || fallback`, and `s.split(sep)[1]`.

Everything outside the program is an input to the model:
- whether each Telegram send or edit succeeds;
- the rows a sheet read returns, or that the read fails;
- whether an append succeeds;
- the timestamp string.

JavaScript `%` in the gallery handlers only ever sees non-negative operands, so it
agrees with Dafny's `%`.

Other modelling choices:
- Ids are `nat`, and `toString()` is decimal printing.
- A missing string attribute (username, first or last name) is `""`. JavaScript's
  `||` treats it the same as `undefined`.
- A session that is `undefined` and the `{}` the contact handler leaves behind are
  both `Session.Idle`. The handler cannot tell them apart.
- The subscriber id is appended as a number. With `RAW` input it reads back as its
  decimal text, so the stored first cell is `NatToString(id)`.

Two behaviours of the code that are easy to miss:
- "Заказать обратный звонок" only asks for the phone number and writes no session;
  only `trial_*` and `book_camp` do (bot.js:375-386). A contact without a pending
  session is therefore a callback request.
- The leads row has no last-name column (bot.js:484-485).

## Model

| member | source | states |
|---|---|---|
| Text.NatToString | bot.js:1303 | `id.toString()` gives at least one character, only decimal digits, and no leading zero unless the id is 0 |
| Text.NatToStringInjective | bot.js:1303 | distinct ids print as distinct strings (proved by parsing the digits back) |
| Text.IndexOfFrom | bot.js:1308 | finds the first occurrence of the separator at or after a position; no earlier one exists; None means there is none at or after the position |
| Text.SplitSecond | bot.js:1308 | `text.split("/broadcast ")[1]` is undefined exactly when the separator never occurs |
| Text.SplitSecondPiece | bot.js:1308 | the extracted piece never contains the separator; it sits in the text right after the first occurrence, no occurrence starts inside it, and it runs up to the second occurrence or to the end of the text |
| Text.SplitSecondAfterPrefix | bot.js:1308 | for a text of separator + m, where m has no separator, the piece is m itself |
| Gallery.NextIndex | bot.js:771-772 | `(i+1) % N` stays in [0, N); it is i+1, except that N-1 wraps to 0 |
| Gallery.PrevIndex | bot.js:735-737 | `(i-1+N) % N` stays in [0, N); it is i-1, except that 0 wraps to N-1 |
| Gallery.PrevUndoesNext | bot.js:735-772 | prev after next, and next after prev, return to the starting index |
| Gallery.Run | bot.js:733-800 | after any sequence of prev/next presses the cursor is still in [0, N) |
| Gallery.RunIsNetShift | bot.js:733-800 | any sequence of presses moves the cursor by (#next − #prev) modulo N |
| Gallery.NextCycles | bot.js:769-772 | N presses of next return the cursor to its start |
| Gallery.PrevCycles | bot.js:733-737 | N presses of prev return the cursor to its start |
| Gallery.Caption | bot.js:744-746 | the caption "Фотография k из N" opens with "Фотография ", shows the position k right after it and ends with the photo count N |
| Gallery.CaptionInjective | bot.js:744-746 | different positions get different captions "Фотография k из N" |
| Gallery.Paginator.constructor | bot.js:694-707 | a gallery starts with its photo list and cursor 0 |
| Gallery.Paginator.View | bot.js:743-746 | the photo rendered at the cursor is photos[cursor], captioned with position cursor+1 of N |
| Gallery.Paginator.Open | bot.js:711-728 | opening always shows photos[0] captioned "Фотография 1 из N" with the gallery's two buttons; the cursor is not changed |
| Gallery.Paginator.ShowNext | bot.js:769-800 | the cursor becomes NextIndex of the old one and stays valid; a successful edit shows photos[cursor] captioned cursor+1 of N; a failed edit changes no message |
| Gallery.Paginator.ShowPrev | bot.js:733-766 | the same for PrevIndex |
| Gallery.NewCampGallery | bot.js:694-707 | the camp gallery: 8 photo paths, cursor 0, actions prev_photo / next_photo |
| Gallery.NewExcursionGallery | bot.js:803-812 | the excursion gallery: 5 photo paths, cursor 0, actions prev_excursion_photo / next_excursion_photo |
| Leads.TrialLessonButton | bot.js:76-84 | the button made for a registered course key carries data that the action dispatch reads back as that very key; its text is "Узнать о сменах" exactly for summer_club |
| Leads.TrialKey | bot.js:410-412 | callback data names a registered action only as `trial_<key>` with `key` among the registered course keys; any other data matches none of them |
| Leads.OnAction | bot.js:410-449 | `trial_<key>` for a registered key sets `AwaitingContact(label of key)`; `book_camp` sets `AwaitingContact("Загородный кэмп")` with the booking prompt; any other action leaves the session unchanged |
| Leads.TrialButtonSelectsCourse | bot.js:76-84 | the button made for a key carries `trial_<key>`; pressing it opens a session for that key's label whatever was there before; summer_club gets the "shifts" prompt and others the trial prompt |
| Leads.CampLabels | bot.js:390-407 | only summer_camp maps to the camp label and only summer_club to the city-camp label; no label is empty |
| Leads.AppendRow | bot.js:89-96 | `appendToSheet` appends the request type and course to the given cells |
| Leads.RequestOf | bot.js:478-481 | the request is a trial request exactly when a contact was awaited and a callback request exactly when not; the course is the session's, or "" without a session |
| Leads.AppendRowDefaults | bot.js:89-93 | if omitted, the request type defaults to "Обратный звонок" and the course to "" |
| Leads.LeadRow | bot.js:484-485 | the leads row has six cells: date, first name (or ""), username (or ""), phone, request type, course |
| Leads.LeadRowIgnoresLastName | bot.js:484-485 | two contacts that differ only in last name produce the same leads row |
| Leads.SelectReply | bot.js:488-503 | a trial reply names the request's course and the phone and comes only for a trial request; a callback reply names the phone and comes only for a callback request; a camp reply comes exactly when the course is one of the two camps |
| Leads.ReplyPriority | bot.js:488-503 | first match wins: camp course, else city-camp course, else trial request, else callback; each reply kind is chosen exactly when its own test holds and every earlier test failed |
| Leads.ReplyText | bot.js:488-503 | every one of the four replies opens with "Спасибо" |
| Leads.ReplyNamesContact | bot.js:488-503 | the trial and callback replies start with "Спасибо! " and contain the phone number; the trial reply also contains the course |
| Leads.HandleContact | bot.js:468-516 | the row is exactly [date, firstName, username, phone, requestType, course]; requestType is the trial request iff a contact was awaited; course is the session's (`""` otherwise); the reply is the one picked by the priority rule; the session afterwards is Idle |
| Leads.TrialThenContact | bot.js:410-503 | a course button followed by a contact gives a trial request for that course, answered with the camp, city-camp or trial reply according to the key |
| Leads.BookCampThenContact | bot.js:444-492 | `book_camp` followed by a contact gives a trial request for "Загородный кэмп" and the camp reply |
| Leads.IdleContactIsCallback | bot.js:478-481 | with no pending session, a contact is a callback request for course "" with the callback reply; this includes a second contact after the session was cleared |
| Newsletter.SubscriberRow | bot.js:145-166 | the subscriber row is [id as text, username or "нет", "first last", date] |
| Newsletter.UserExists | bot.js:160 | `rows.some(row => row[0] === key)` holds exactly when key is the first cell of some non-empty row |
| Newsletter.CountIdExists | bot.js:160 | `rows.some(row => row[0] === key)` holds iff there is at least one row with that key |
| Newsletter.AfterSave | bot.js:159-173 | after a save whose calls both succeed the user's id is in the sheet; when either call fails the sheet is as before |
| Newsletter.SaveOnlyAppends | bot.js:163-173 | a save either leaves the sheet alone or appends the user's row at the end; it changes the sheet iff both calls succeed and no row has the id |
| Newsletter.SaveCount | bot.js:159-173 | a successful save takes the id's row count from 0 to 1 and otherwise leaves it unchanged |
| Newsletter.SaveIdempotent | bot.js:159-173 | once a save has succeeded, saving a user with the same id again, whatever its username and names, on any date and with any outcome, changes nothing |
| Newsletter.SaveTwiceOneRow | bot.js:159-173 | saving a user who was not in the sheet, then saving a user with the same id again (names possibly changed), leaves exactly one row with that id |
| Newsletter.SubscriberSheet.SaveUserToNewsletter | bot.js:142-177 | the sheet becomes AfterSave of the old sheet; a failed read or append leaves it unchanged |
| Newsletter.DeliveryTo | bot.js:196-210 | each send goes to the row's first cell (none for an empty row); it is a photo with the message as caption exactly when a non-empty image is given, otherwise the bare message |
| Newsletter.SendNewsletter | bot.js:181-227 | a failed read gives {0, 0} and no sends; otherwise every row gets exactly one send attempt, in order (a photo with caption when there is an image, else text), successCount is the number of successful sends and errorCount the number of failed ones |
| Newsletter.TallyCoversEveryRow | bot.js:193-222 | successCount + errorCount equals the number of rows read |
| Newsletter.TallyWithFailures | bot.js:193-222 | with M of K sends failing the tally is {K−M, M}; with all K succeeding it is {K, 0} |
| Broadcast.IsAdmin | bot.js:1303 | `ADMIN_IDS.includes(id.toString())` can only hold when some list element is made of digits alone |
| Broadcast.NoSenderIsAdmin | bot.js:231 | with ADMIN_IDS as declared, `ADMIN_IDS.includes(id.toString())` is false for every id |
| Broadcast.DeclaredListRefusesAll | bot.js:1303-1305 | with the declared list every `/broadcast` is denied, whatever its text |
| Broadcast.IntendedAdmins | bot.js:231 | the three-element list admits exactly ids 502105220, 5734831768 and 451751415 |
| Broadcast.IntendedListAdmitsAdmin | bot.js:1303-1309 | with the three-element list, admin 502105220 sending "/broadcast m" sends m |
| Broadcast.Decide | bot.js:1303-1315 | the sender is refused exactly when not an admin; a message that is sent is non-empty and never contains "/broadcast " |
| Broadcast.DecideGates | bot.js:1303-1315 | the denial happens exactly for non-admins; a send happens only when the extracted piece is present and non-empty; an admin text without "/broadcast " gets the usage reply; an admin whose text gives a present, non-empty piece broadcasts exactly that piece |
| Broadcast.DecideSendsMessage | bot.js:1308-1315 | an admin's "/broadcast m", with m non-empty and without the separator, sends m |
| Broadcast.ImageOf | bot.js:1318-1324 | the image is the last photo size of the replied-to photo, and there is none when the command is not a reply to a photo |
| Broadcast.Report | bot.js:1332-1334 | the report opens with its fixed heading "Рассылка завершена: ✅ Успешно: ", shows the success count right after it and ends with the error count |
| Broadcast.ReportInjective | bot.js:1332-1334 | different tallies never give the same report: both counts can be read back from it |
| Broadcast.HandleBroadcast | bot.js:1301-1335 | a non-admin gets only the denial reply, no list read and no sends; a missing text gets only the usage reply; otherwise the reply reports the tally of SendNewsletter over the rows read |

## Findings

| source | as written | input that shows it | evidently intended | confidence | as-written member | corrected member |
|---|---|---|---|---|---|---|
| bot.js:231 | `ADMIN_IDS` is a one-element array. Its single element is the comma-joined string "502105220, 5734831768, 451751415". | sender 502105220 sends "/broadcast hi" and gets the denial reply | three separate ids, so each listed admin can broadcast | high (not executed) | Broadcast.NoSenderIsAdmin | Broadcast.IntendedAdmins |

`HandleBroadcast` and `Decide` take the allow-list as a parameter:
- with `AdminIds` they reproduce the code as written (`DeclaredListRefusesAll`);
- with `IntendedAdminIds` they admit the three listed ids (`IntendedListAdmitsAdmin`).

## Left out

- Telegram transport calls (`reply`, `replyWithPhoto`, `editMessageMedia`, `answerCbQuery`, `sendPhoto`, `sendMessage`). Their success or failure is an input. The acknowledgement of a gallery button is not modelled.
- Google Sheets authentication and API calls. The sheets are in-memory row sequences, and read or append outcomes are inputs. The leads-sheet `append` in `appendToSheet` is not awaited, so its failure is never seen. The model only returns the row the handler asks to append.
- `logUserAction` and the action-log sheet, `console` logging, and the 100 ms pause after each successful send. These are audit, time and scheduling concerns.
- Timestamps from `new Date().toLocaleString(...)`. Each is an opaque input string.
- Static menus, keyboards, Markdown copy and URLs. The texts of the prompts sent by `trial_*`/`book_camp` are reduced to which prompt is sent (`Leads.Prompt`).
- Two users paging one gallery at once. The cursor is shared; the model covers only sequential calls.
- The duplicate `hears` registrations for "Экскурсия по центру" (bot.js:279) and "Фото локации" (bot.js:1278). Which handler runs depends on the framework's dispatch. Only the gallery-opening handlers are modelled.
- `/getid` and the catch-all text handler. They are fixed replies.
- How Telegraf routes updates: exact matching of callback data, `/broadcast@botname`, and per-user session keys. The model is handed the one user's session and the command text.
- Broadcast.ImageOf: requires a non-empty photo-size list when the command replies to a photo. Telegram always sends at least one size. With an empty list the handler would throw before broadcasting.
- Newsletter.SubscriberSheet.SaveUserToNewsletter: a missing `ctx.from` (which would make `userId.toString()` throw) is not modelled, because `/start` always has a sender.
