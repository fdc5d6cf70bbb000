# find-logement-crous: the alert-polling engine and the result check, in Dafny

This project models the core of a small Flask application. The application watches the CROUS student-housing
search site for user-defined alerts and e-mails the offers it finds. Two parts are modelled:

- **The alert-polling engine** (`app.py`), module `Alerts`. A `Monitor` object holds two maps. The alert
  store maps an alert id to its `status`, `interval` and `emails` columns. The thread registry
  (`scraping_threads`) maps an alert id to whether the thread registered for it is still alive. The methods of
  `Monitor` model these operations:
  - one pass of the background manager (`ManageAlertsTick`);
  - the per-alert scraping thread (`StartScraping`) and its exit path (`Unregister`);
  - the toggle route;
  - the delete route, both as written and corrected.

  Threads are not modelled. Each tick, each worker run and each route call is one atomic step on the shared
  state. A worker run is driven by a finite sequence of rounds. Each round gives the page that round's check
  sees and the net write that other actors made to the record during the sleep that follows a no-match check.
  The pure function `Poll` specifies the scraping loop, and `StartScraping` is proved against it. The object
  invariant `Valid` states that no live thread is registered for an alert that no longer exists.
- **The result check and the notification** (`scraper.py`), module `Scraper`, on top of module `Text`. `Text`
  models the Python string operations the check uses: `strip`, `split`, `join` and the substring test.
  `Scraper` models these rules:
  - the match rule, including "any exception means no match";
  - the extraction of offer records from the result cards;
  - the splitting of an alert's `emails` field into recipients;
  - the `To` header;
  - the plain-text body of the notification.

  A fetched page comes in as its status code, the text of its results heading (if the page has one) and its
  offer cards. Each card field says whether the element the scraper looks up is present.

## Model

| member | source | states |
|---|---|---|
| `Alerts.Monitor.constructor` | app.py:39-40 | The application starts with the stored alerts and an empty thread registry, and the object invariant holds. |
| `Alerts.ActiveIds` | app.py:85 | The tick's query: the ids of the stored alerts whose status is true. |
| `Alerts.Started` | app.py:87-90 | A tick starts a thread for exactly the active ids that have no live thread: never for an id whose thread is alive, always for one that is absent or dead. |
| `Alerts.StartMissing` | app.py:85-90 | After a tick, every active alert has a live thread. An entry whose thread is alive is left as it is, so no id gets a second live thread. A dead entry counts as absent and is replaced by a live one. Entries of inactive or unknown ids are untouched. No entry is removed. |
| `Alerts.Monitor.ManageAlertsTick` | app.py:81-92 | One manager pass leaves the store unchanged, turns the registry into `StartMissing` of the old registry and the active ids, and keeps the invariant. It returns the ids it started threads for, which are exactly `Started` of the old registry and the active ids. |
| `Alerts.StartMissingIdempotent` | app.py:87-90 | A second tick over the same active alerts leaves the registry unchanged and starts no thread at all (`Started` of the new registry is empty), so repeated ticks do not pile up threads. |
| `Alerts.NegativeIntervalRestart` | app.py:60-69 | Concrete run: an active alert with interval -1. Its worker makes one check, finds nothing, and dies in the sleep. The alert stays active, and the next manager pass starts a new thread for it. |
| `Alerts.TickTwice` | app.py:85-90 | Concrete run: one active alert, two manager ticks. The first starts a thread for it; the second, seeing that thread alive, starts none. |
| `Alerts.Refresh` | app.py:71 | The re-read after the sleep: the status as last written by another actor, the worker's own status when nobody wrote, and a failure when the record was deleted. |
| `Alerts.Poll` | app.py:58-71 | A check is made in exactly the rounds at whose head the status is true. Every check before the last one is a no-match whose refresh read true. The first matching check ends the loop, leaves the status false, and no check follows it. The sleep after a no-match check fails exactly when CPython's `time.sleep` rejects the interval: a negative one, or one above 9223372036 seconds, which overflows its 64-bit nanosecond count. Such a worker makes at most one check and then dies with the record left active. A refresh that reads false ends the loop. A refresh of a deleted record crashes the worker. While the alert stays active the loop goes on. |
| `Alerts.Monitor.StartScraping` | app.py:50-77 | If the alert is missing, the worker makes no check, writes nothing and sends nothing, and only its thread ends. Otherwise the run is the one `Poll` gives for the alert's stored status and interval, and the record ends up as the run leaves it. One e-mail is sent exactly when a check matched, and it is the notification for the page that check saw (`MailFor`: recipients, `To` header, subject, offers and body). On loop exit the worker removes its own entry. A crash, in the refresh or in the sleep, leaves the entry with a dead thread. The store/registry invariant is kept. |
| `Alerts.Monitor.ThreadDies` | app.py:54-56 | A thread that ends without reaching the exit path of app.py:75-77, because the alert was missing, the sleep at line 69 raised or the refresh at line 71 raised, leaves its entry in the registry with a dead thread and changes nothing else. |
| `Alerts.Monitor.PollLoop` | app.py:58-71 | The loop of a stored alert's worker runs exactly as `Poll` says for the status and interval it loaded. The record ends with the status the run leaves, or is gone after a refresh crash. The registry is not touched. One e-mail is sent exactly when a check matched, and it is the notification `MailFor` describes for the page of that check and the alert's `emails`. |
| `Alerts.Monitor.PollRound` | app.py:61-71 | One pass of the loop body for an active alert is the run `Poll` gives over that single round: a match deactivates the alert and sends the notification `MailFor` describes, an interval the sleep rejects makes it fail with the record untouched, a deleted record crashes the refresh, and otherwise the record takes the status the refresh reads. No e-mail is sent except on a match. |
| `Alerts.PollFirstRound` | app.py:60-71 | A worker run is its first round followed by the run from the status that round leaves, unless that round already ended the loop. |
| `Alerts.Monitor.Unregister` | app.py:75-77 | The exit path removes the worker's own entry if present and changes nothing else. Removing an absent entry is a no-op, so removal is idempotent. |
| `Alerts.Monitor.ToggleAlertStatus` | app.py:156-163 | An unknown id answers 404 and changes nothing. Otherwise the alert's status is negated and nothing else changes. |
| `Alerts.Monitor.AwaitWorker` | app.py:174-177 | The join is reached only for an existing alert with a live thread, after the status has been written false. A worker that is sleeping or has not loaded the alert yet runs on through `StartScraping`: it makes no check and leaves its loop. A worker caught in a check finishes that round through `PollRound`: a match sends its notification, a sleep that fails kills the thread, and otherwise the refresh reads false. When the join returns the record is unchanged. The thread's entry is gone, except after a failed sleep, which leaves it dead. |
| `Alerts.Monitor.DeleteAlertAsWritten` | app.py:166-184 | An unknown id answers 404. With a live thread, the route writes status false, waits for the thread, and then fails with a KeyError on the registry key the thread already removed. The record stays stored and inactive. The one exception is a worker caught in a no-match check whose sleep then fails: it leaves its key, so the `del` succeeds and the record is deleted. Without a live thread, the record is deleted and the registry is untouched. |
| `Alerts.DeleteDuringFailingCheck` | app.py:166-184 | Concrete run: an active alert with interval -1, one manager tick, then the route as written while the worker is in a check that finds nothing. The worker dies in the sleep, and the route deletes the alert and its entry. |
| `Alerts.DeleteLiveAlertAsWritten` | app.py:171-182 | Concrete run: an active alert, one manager tick, then the route as written. The route raises KeyError and the alert stays stored, deactivated. |
| `Alerts.Monitor.DeleteAlert` | app.py:166-184 | Corrected route. Any existing alert is deleted. With a live thread, the status is written false first, the thread finishes and deregisters, and only then is the record removed. The invariant is kept. |
| `Alerts.DeleteLiveAlert` | app.py:171-182 | The same concrete run with the corrected route: the alert and its registry entry are both gone. |
| `Scraper.CheckForResults` | scraper.py:56-98 | Reports a match exactly when the match rule holds: status 200, the results heading present, no "Aucun logement trouvé" in it, and every card readable. It sends one notification exactly on that path, the one `MailFor` describes: to the recipients of the alert, with the `To` header joining them, the fixed subject, the stripped heading as message and one offer per card in page order. Every other path, including every exception, reports no match and sends nothing. |
| `Scraper.Matches` | scraper.py:69-72 | The match rule: status 200, the results heading present, no "Aucun logement trouvé" in it, and every card readable by the offer loop. |
| `Scraper.NoResultsHeadingNeverMatches` | scraper.py:72 | A heading that contains "Aucun logement trouvé" at any position never matches. |
| `Scraper.MatchesByOffsets` | scraper.py:66-72 | The match rule restated with the substring test spelled out: status 200, a heading, "Aucun logement trouvé" at no offset of it, and every card readable. |
| `Scraper.ToOffer` | scraper.py:83-89 | The record for one card has its title, price and description with no white space at either end, and a link that starts with the site's base URL. |
| `Scraper.ExtractOffers` | scraper.py:75-89 | Fails (the exception) exactly when some card lacks an element or attribute the loop reads. Otherwise it gives one offer per card in page order. Each offer has the stripped title, price and description, the image source, and a link made of the site base URL followed by the card's `href`. |
| `Scraper.PlainTextBody` | scraper.py:17-19 | The body is the message, then the intro line, then each offer's `title - price`, link and blank-line block, in order. |
| `Text.ConcatMapAppend` | scraper.py:18-19 | The text built for a concatenation of lists is the text for the first list followed by the text for the second, so the body's offer blocks can be split at any point. |
| `Scraper.OfferBlockInOrder` | scraper.py:18-19 | For any offer list split around one offer, that offer's block sits in the body after the blocks of the offers before it and before those of the offers after it. |
| `Scraper.SendEmail` | scraper.py:11-19 | The notification carries the given recipients, a `To` header joining them with ", ", the fixed subject, the given offers, and the plain-text body built from the message and offers. |
| `Scraper.ToHeader` | scraper.py:14 | The `To` header joins the recipients with ", ". |
| `Scraper.Recipients` | scraper.py:92 | The recipient at each position is the `strip()` of the field's piece at that position under `split(",")`. There is one more recipient than there are commas. None holds a comma or surrounding white space. An empty field gives one empty recipient. |
| `Scraper.RecipientsSingle` | scraper.py:92 | A field without a comma gives exactly one recipient: the field stripped. |
| `Scraper.HeaderRoundTrip` | scraper.py:14 | Parsing the `To` header as an `emails` field gives back any non-empty list of stripped, comma-free addresses. |
| `Scraper.RecipientsThroughHeader` | scraper.py:92 | The recipients of any field survive a trip through the `To` header. |
| `Text.Strip` | scraper.py:84-87 | `strip()` returns a string with no white space at either end, made only of characters of the input. An already stripped string comes back unchanged, and only an all-blank input becomes empty. |
| `Text.StripCutsBlanks` | scraper.py:84-87 | The result of `strip()` is a contiguous run of the input with only white space before it and only white space after it. |
| `Text.StrippedAtUnique` | scraper.py:84-87 | At most one stripped string is the input with white space cut off its ends, so with `StripCutsBlanks` the result of `strip()` is fully determined. |
| `Text.StripSpacePrefix` | scraper.py:92 | A leading space does not change what `strip()` returns, which is why the ", " of the `To` header is harmless when it is split again. |
| `Text.Split` | scraper.py:92 | `split(",")` returns one more piece than there are separators. No piece contains the separator, and joining the pieces with it gives the input back. |
| `Text.SplitJoin` | scraper.py:92 | Splitting a join of separator-free pieces gives the pieces back. |
| `Text.ContainsTextAt` | scraper.py:72 | The substring test succeeds whenever the needle occurs at some offset of the text. |
| `Text.ContainsTextHasOffset` | scraper.py:72 | Conversely, when the substring test succeeds it names an offset at which the needle occurs. |
| `Text.ContainsTextIffOccurs` | scraper.py:72 | The substring test succeeds exactly when the needle occurs at some offset of the text. |

## Left out

- Threads, `time.sleep`, the `join` (app.py:177) and the daemon manager thread (app.py:81-92, started at line 97) are not modelled. Each tick, worker run and route call is one atomic step. Races between steps are therefore not modelled. One example: a thread that ends between `start()` (line 89) and its registration (line 90) leaves a dead entry behind. Another: two interleaved manager passes.
- The manager's endless loop and its 5-second cadence are not modelled. `ManageAlertsTick` is one pass.
- Alerts.Monitor.StartScraping: the unbounded loop is modelled over a finite sequence of rounds. When the rounds run out while the alert is still active, the run ends as `StillPolling`. The interval is stored but elapsed time is not modelled.
- Alerts.Monitor.StartScraping: the run uses the `emails` and `interval` values loaded at the start. The refresh at app.py:71 would also pick up an edited address list or interval.
- Alerts.Monitor.AwaitWorker: the e-mail a check in flight during the join sends is returned by `AwaitWorker`, but the delete routes drop it from their results. A status switched back to active during the join keeps the join waiting until the worker's next match or deactivation, and that is not modelled either.
- The create and edit routes accept any integer interval (app.py:120, 145). A zero interval is used as is. A negative one, or one above 9223372036 seconds, makes the sleep at app.py:69 raise, and the model follows that as the `SleepFailed` exit. An unreachable store is not tolerated, because the code does not tolerate it. The upper bound is CPython's on a platform with a 64-bit nanosecond clock type; other interpreters are not modelled.
- The code leaves the registry entry in place in three cases: when the alert is missing at start (app.py:54-56), when the sleep raises on an interval it rejects (app.py:69), and when the refresh raises (app.py:71). The model follows the code there and does not remove the entry on every exit.
- `log_message`, logging and the SocketIO live log are output only.
- The index, create and edit routes (form parsing, templates, `flash`, `get_meta_data`) are not modelled. `handle_start_scraping` and `handle_stop_scraping` are not modelled either: they read an undefined `scraping_active` and pass an alert object where an id is expected.
- The SQLAlchemy session and `models.py` are not modelled. The store is a map, and each commit is immediate. Only `status`, `interval` and `emails` are kept (status and interval default to true and 300). Name, city, price, bounds and timestamps are left out.
- The HTTP request, the search URL with its float price, and BeautifulSoup are not modelled. A page arrives already parsed into its status code, heading text and cards. A missing `h3` and a missing `a` inside it both count as a missing title.
- The HTML part of the e-mail, the `From` header (a configuration value) and SMTP delivery with its caught errors are not modelled. `SendEmail` returns the message that would be handed to SMTP.
- `static/script.js` and `config.py` are not part of this model.
- Characters are Unicode code points. `strip()` uses Python's white-space set. No encoding or normalisation is modelled.

## Findings

| source | as written | input that shows it | evidently intended | confidence | as-written member | corrected member |
|---|---|---|---|---|---|---|
| app.py:178 | After the join, `del scraping_threads[alert_id]` runs unconditionally. The finished thread has already removed that key (lines 76-77), so the route raises KeyError and never reaches the record deletion (lines 181-182). | An existing alert with a live thread whose worker does not die in its sleep, for example an active alert with interval 300 after one manager pass. | Remove the key only if present, so the record is deleted after the thread has stopped. | high; not executed | `Alerts.Monitor.DeleteAlertAsWritten`, `Alerts.DeleteLiveAlertAsWritten` | `Alerts.Monitor.DeleteAlert`, `Alerts.DeleteLiveAlert` |
