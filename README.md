# Manager: the roast pipeline and the route guards, in Dafny

Manager is a task manager whose server runs a scheduled "roast" job: it
finds every user with pending tasks past their due date, asks a language
model to roast that user in the voice of a persona chosen by the user's roast
level, and e-mails the result. This project models that job and the pieces
it is built from, together with the two route middlewares of the web
application and two of its display helpers:

- `Persona` (`persona.dfy`): the table of four personas (gentle, firm, toxic,
  unhinged), the fallback to the gentle one, and the trimmed template the
  chosen persona is rendered into.
- `Roaster` (`roaster.dfy`): the prompt of one user, that is the persona of
  their level and the "material" block with their name, job title, quoted bio
  and one `- [container] title` line per overdue task.
- `RoastCron` (`roast_cron.dfy`): the cron handler. It checks the bearer
  secret. It selects the overdue rows of the user/container/task join and
  groups them by user. It answers with a message when there is nobody to
  roast. Otherwise it attempts every target in turn, where a failing model
  call or e-mail send is logged and does not stop the loop, and it returns
  the number of targets.
- `AuthMiddleware` and `VerifiedEmailMiddleware` (`auth_middleware.dfy`,
  `verified_email.dfy`, over the shared `Navigation` types): the redirect
  decisions of the profile-completion and e-mail-verification guards.
- `Helper` (`helper.dfy`): the greeting for an hour of the day and the
  colour classes of a task category.
- `JsText` (`jstext.dfy`): the JavaScript string operations these rely on:
  `trim` with the ECMAScript white-space set, `join`, and the rendering of
  `null` inside a template literal. It also defines `split` on one
  character, which the application never calls: it only serves to state
  that the joined task list reads back line by line (`Roaster.TaskListLines`).
  Strings are sequences of Unicode scalar values rather than UTF-16 code
  units; every white-space character and separator involved lies in the
  Basic Multilingual Plane, where the two agree.

The handler's surroundings are inputs. The clock, the Authorization header,
the configured secret and the rows of the join, absent when the query
rejects, are parameters. The model call and the e-mail send are oracles:
functions of the attempt number and of what is sent. The model call either
throws or resolves with the response's text, which may be undefined; an
undefined text is still passed to sendRoastEmail, as the handler does. The
send oracle says whether that call resolved or threw. The handler returns
its response together with the list of effects it performs, in order: the
query, each model call with the persona and material sent, each call of
sendRoastEmail with its recipient and text, and each success or failure log
line.

The loop is written once, over any prompt builder (`RoastCron.RoastEach`),
and the handler runs it with the real one (`RoastCron.PromptFor`).

## Model

| member | source | states |
|---|---|---|
| Persona.Resolve | server/utilis/Persona.ts:25 | one of the four keys selects its own persona; any other level, null included, falls back to gentle |
| Persona.ResolveKey | server/utilis/Persona.ts:25 | each key selects its own level, and a level other than gentle is selected only by its own key |
| Persona.UnknownLevelIsGentle | server/utilis/Persona.ts:25 | a level outside the four keys renders exactly the gentle persona |
| Persona.ParagraphParts | server/utilis/Persona.ts:27-30 | the paragraph opens with "You are a " and the role, carries the traits at their offset and ends with the instruction |
| Persona.TrimmedTemplate | server/utilis/Persona.ts:27-31 | trimming the indented template leaves exactly the paragraph, which has no white space at either end |
| Persona.TableWellFormed | server/utilis/Persona.ts:2-23 | no role of the table starts, and no instruction ends, with white space |
| Persona.RoastPersonaShape | server/utilis/Persona.ts:25-31 | the rendered persona starts with "You are a " and the selected role, carries the traits verbatim, ends with the instruction verbatim and is trimmed |
| Persona.PersonasDistinct | server/utilis/Persona.ts:2-31 | the four levels render four different personas |
| JsText.TrimStart | server/utilis/Persona.ts:31 | the result is the input with exactly its leading white space removed: what is dropped is all white space and what is left does not start with white space |
| JsText.TrimEnd | server/utilis/Persona.ts:31 | the result is the input with exactly its trailing white space removed: what is dropped is all white space and what is left does not end with white space |
| JsText.TrimPadded | server/utilis/roaster.ts:9-20 | trimming a text padded with white space on both sides, whose own ends are not white space, gives back that text |
| JsText.TrimIsTrimmed | server/utilis/roaster.ts:20 | trim always yields a string with no white space at either end |
| JsText.JoinSnoc | server/utilis/roaster.ts:7 | joining one more part after a non-empty list appends the separator and that part to the join of the list |
| JsText.JoinContainsPart | server/utilis/roaster.ts:7 | every part occurs in the joined string |
| JsText.SplitJoin | server/utilis/roaster.ts:7 | splitting on c gives back the parts joined with c, one for one and in order, when no part contains c |
| Roaster.TaskList | server/utilis/roaster.ts:7 | an empty task list formats to the empty string |
| Roaster.TaskLineIsSingleLine | server/utilis/roaster.ts:7 | a task whose title and container name have no line break gives a line without one |
| Roaster.TaskListLines | server/utilis/roaster.ts:7 | read back line by line, the formatted list is exactly the task lines, in order |
| Roaster.MaterialTextEnds | server/utilis/roaster.ts:9-19 | the untrimmed text starts with "TARGET IDENTITY:" and ends with "make it personal." |
| Roaster.MaterialIsText | server/utilis/roaster.ts:9-20 | trimming removes exactly the template's indentation |
| Roaster.MaterialShape | server/utilis/roaster.ts:9-20 | the material is trimmed, starts with "TARGET IDENTITY:", ends with "make it personal." and contains the name line, the profession line, the quoted bio line and the formatted list of tasks under its heading |
| Roaster.NullJobTitleRendersNull | server/utilis/roaster.ts:12 | a user without a job title gets the line "- Profession: null" in the material |
| Roaster.NullBioRendersNull | server/utilis/roaster.ts:13 | a user without a bio gets the line `- Bio: "null"` in the material |
| Roaster.MaterialListsEveryTask | server/utilis/roaster.ts:7-16 | every task's line occurs in the material |
| Roaster.RoastPromptSpec | server/utilis/roaster.ts:3-23 | the persona is the one of the user's roast level; the material is trimmed and contains the name line and every task's line |
| RoastCron.OverdueRows | server/api/cron/roast.get.ts:33-38 | a row is kept exactly when its status is pending and its due date is present and strictly before now, with every copy of a kept row kept and no row added |
| RoastCron.TasksOf | server/api/cron/roast.get.ts:25-28 | a user's aggregated task list is empty exactly when none of the rows is theirs |
| RoastCron.AddRowSpec | server/api/cron/roast.get.ts:39 | adding a row extends its user's group, or opens a new group at the end, and leaves every other group alone |
| RoastCron.GroupSpec | server/api/cron/roast.get.ts:18-39 | one group per user present in the rows, each with all of that user's tasks in row order and that user's record |
| RoastCron.SelectTargetsSpec | server/api/cron/roast.get.ts:18-39 | every user with a pending task due strictly before now, and no other, is selected exactly once, with a non-empty list of all their overdue tasks |
| RoastCron.AttemptShape | server/api/cron/roast.get.ts:46-55 | an attempt calls the model first, calls sendRoastEmail exactly when the model call resolved, with the target's address and the response's text even when that is undefined, and ends with one log line that reports success exactly when the roast went through |
| RoastCron.AttemptFilters | server/api/cron/roast.get.ts:46-55 | an attempt makes exactly one model call and writes exactly one log line |
| RoastCron.AttemptSends | server/api/cron/roast.get.ts:49-50 | an attempt calls sendRoastEmail with (to, text) exactly when the target has address to and the model call resolved with that text, undefined included; whether the e-mail went through is left to the closing log line |
| RoastCron.RoastOne | server/api/cron/roast.get.ts:46-55 | one pass of the loop body performs exactly the effects of the attempt |
| RoastCron.RoastEach | server/api/cron/roast.get.ts:45-56 | the loop performs the attempts of all targets one after the other, in order |
| RoastCron.RunAttemptsEveryTarget | server/api/cron/roast.get.ts:45-56 | the model is called once per target, in target order, with that target's prompt, whatever happened in earlier attempts |
| RoastCron.RunLogsEveryTarget | server/api/cron/roast.get.ts:45-56 | one log line per target, in target order, reporting success exactly for the targets whose roast went through |
| RoastCron.RunSendsExactly | server/api/cron/roast.get.ts:45-56 | sendRoastEmail is called with (to, text), text possibly undefined, exactly when some target with address to got a response with that text from the model; delivery is reported by the log lines |
| RoastCron.HandleRoast | server/api/cron/roast.get.ts:8-62 | a wrong or missing header gives 401 "Unauthorized" and no effect; a query that rejects makes the handler reject after the query alone, before any attempt; no target gives "No overdue tasks found." after the query alone; otherwise success with roastedCount equal to the number of targets, after the query and the attempts of all targets in order |
| AuthMiddleware.DecisionTable | app/middleware/auth.ts:25-39 | no session: /login; incomplete profile: /add-bio, or nothing on /add-bio itself; complete profile: /dashboard from /add-bio, nothing elsewhere; each outcome exactly in its situations |
| AuthMiddleware.EmptyFieldIsMissing | app/middleware/auth.ts:29-34 | a null or empty job title or bio sends the user to /add-bio |
| AuthMiddleware.Decide | app/middleware/auth.ts:17-40 | no session: /login; a redirect only ever goes to /login, /add-bio or /dashboard; with a session the redirect never targets the requested path |
| AuthMiddleware.RedirectSettles | app/middleware/auth.ts:29-39 | with a session, the page a redirect leads to is let through |
| VerifiedEmailMiddleware.DecisionTable | app/middleware/verifiedEmail.ts:12-27 | no session record: /login; unverified: /verify-email, or nothing on that page; verified: /dashboard from /verify-email, nothing elsewhere; each outcome exactly in its situations |
| VerifiedEmailMiddleware.Decide | app/middleware/verifiedEmail.ts:12-27 | not signed in: /login; a redirect only ever goes to /login, /verify-email or /dashboard; signed in, the redirect never targets the requested path |
| VerifiedEmailMiddleware.RedirectSettles | app/middleware/verifiedEmail.ts:16-27 | signed in, the page a redirect leads to is let through |
| Helper.Greeting | app/utilis/helper.ts:11-16 | the greeting is one of "Good Morning", "Good Afternoon" and "Good Evening" |
| Helper.GreetingThresholds | app/utilis/helper.ts:11-16 | "Good Morning" exactly before 12, "Good Afternoon" exactly from 12 to before 18, "Good Evening" exactly from 18 |
| Helper.GreetingMonotone | app/utilis/helper.ts:12-15 | over the day the greeting only moves forward: morning, afternoon, evening |
| Helper.CategoryClass | app/utilis/helper.ts:25-33 | the class is one of the four colour classes or the slate default, and any category outside the four gets the default |
| Helper.CategoryClassesDistinct | app/utilis/helper.ts:26-30 | work, personal, health and finance get four different class strings |
| Helper.DefaultCategory | app/utilis/helper.ts:26-31 | the slate default is given exactly to the categories outside the four, the empty string included |

## Left out

- Persona.Resolve: a level that names a property every JavaScript object inherits, such as "constructor", is found by the lookup in the source and does not fall back; the model sends every level other than the four keys to the gentle persona. The roast_level column only holds the four keys or null, so the handler never meets such a level.
- Roaster.TaskListLines: holds only when no task title or container name contains a line break; with one, the formatted list has more lines than there are tasks.
- The model call (server/utilis/ai-handler.ts) and the e-mail send (server/utilis/email.ts) go over the network through SDKs. They are oracles of the attempt number and of what is sent. An e-mail send that resolves with an error instead of throwing counts as sent, as it does in the handler.
- The database query runs in SQL. It is a function over the rows of the join. SQL leaves the order of the groups and of each array_agg open; the model takes the order of the rows, and groups in the order of each user's first row.
- Timestamps are integers. The Date objects, the time zone and Intl formatting are not modelled.
- The session fetches of both middlewares, useRequestHeaders, useRuntimeConfig and getHeader are calls into the framework; only the session fetch is awaited. Their results are inputs.
- The thrown 401 error and the rejection of a failed query are response values (`Unauthorized`, `Rejected`); the error a failed query carries is not recorded. console.log and console.error become log effects; the error object passed to console.error is not recorded.
- RoastCron.HandleRoast: the secret is a given string; an unset cronSecret is the string "undefined", for which the expected header is "Bearer undefined", as the template literal renders it.
- getFormattedDate, getPeriodEndDate and handleGoogleSignIn in app/utilis/helper.ts read the clock and Intl, mutate a Date, or call the sign-in service; they are not modelled.
- The rest of the repository (task and container endpoints, the authentication server configuration, the remaining schema columns, the Nuxt and Drizzle configuration) is not part of this model.
