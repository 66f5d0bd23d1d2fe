# GestEPI: inspection scheduling and the inspection dialog, in Dafny

GestEPI tracks personal protective equipment (EPI) and its periodic
inspections (contrôles). This project models two pieces of its React front end:

- **The alerts page** (`Alertes`, file `alertes.dfy`). For each EPI, it finds
  the base date: the last inspection, or failing that the date the item
  entered service. It resolves the inspection interval with JavaScript's `||`:
  the item's own interval, then its type's, then 0. From these it gets the
  next inspection date and the signed number of days left. Every row gets an
  urgency colour, a highlight, and a "days remaining" cell.
- **The inspection list page** (`ControleList`, file `controle_list.dfy`). It
  looks up the related EPI, manager and status by identifier (first match,
  else "-"). Its table cells prefer the records the back end embeds. Its
  add/edit dialog is modelled as the class `ControleDialog` with the page's
  four state fields (`openDialog`, `isEditing`, the draft `currentControle`,
  `snackbar`). The handlers are its methods. `handleSubmit` makes the
  create-or-update decision.

`Records` (file `records.dfy`) holds the records and the shared `formatDate`.
`Wrappers` holds `Option`.

Dates are whole day numbers. The current day (`today`, `now`) is a parameter.
date-fns' `format` is a function parameter that yields `None` where it would
throw. The service's answer to a save is the boolean parameter `succeeded` of
`Submit`.

Three behaviours of the code are worth knowing before reading the model:

- The item's own interval is used whenever it is truthy (present and
  non-zero), not only when it is positive. So a negative own interval is kept,
  and then it disables the schedule even if the type has a valid interval
  (`Alertes.NegativeOwnIntervalDisablesSchedule`).
- There are only two alarm colours. Overdue and under 7 days both get
  `error.main` (`Alertes.OverdueSharesUrgentColor`, `Alertes.UrgencyColorKeys`).
- The page filters nothing. It shows what the server's `getAlerts(threshold)`
  returns, and computes each row from the EPI alone (`Alertes.Row`).

## Model

| member | source | states |
|---|---|---|
| `Records.FormatDate` | GestEPIFront/src/pages/AlertesPage.tsx:69-79 | An absent date shows "-". Any other text is the formatter's output for a present date, and a date the formatter rejects shows "-". The same rule is ControleList.tsx:163-173. |
| `Alertes.OrElse` | GestEPIFront/src/pages/AlertesPage.tsx:89-90 | JavaScript's or-operator `a or b` on an optional number: `a` when present and non-zero, otherwise `b`. |
| `Alertes.BaseDate` | GestEPIFront/src/pages/AlertesPage.tsx:84-85 | The last inspection wins whenever present. Otherwise the service date is used. It is absent exactly when both dates are absent. |
| `Alertes.Periodicity` | GestEPIFront/src/pages/AlertesPage.tsx:89-90 | The own interval when truthy, negatives included. Otherwise the type's interval, or 0 when the type gives none. |
| `Alertes.DaysRemaining` | GestEPIFront/src/pages/AlertesPage.tsx:97-112 | Defined exactly when there is a base date and the interval is positive. It then equals base + interval - today. |
| `Alertes.NextControlDate` | GestEPIFront/src/pages/AlertesPage.tsx:81-95 | "-" without a base date or with an interval of 0 or less. Otherwise the formatted base + interval. |
| `Alertes.NextDateAgreesWithDaysRemaining` | GestEPIFront/src/pages/AlertesPage.tsx:81-112 | The two functions use the same guards. The date column is "-" when the day count is absent, and otherwise shows today + days remaining. |
| `Alertes.NoDateNoSchedule` | GestEPIFront/src/pages/AlertesPage.tsx:82-98 | With neither date, the day count is null and the date column is "-", whatever the interval. |
| `Alertes.LastControlOverridesServiceDate` | GestEPIFront/src/pages/AlertesPage.tsx:100-101 | Once a last inspection exists, changing the service date does not change the day count. |
| `Alertes.NegativeOwnIntervalDisablesSchedule` | GestEPIFront/src/pages/AlertesPage.tsx:105-108 | A negative own interval is kept by the or-chain and then rejected. The type's interval is never used in this case. |
| `Alertes.ZeroOwnIntervalFallsBackToType` | GestEPIFront/src/pages/AlertesPage.tsx:105-111 | An absent or zero own interval falls back to a positive type interval. The count is base + type interval - today. |
| `Alertes.DaysRemainingAsTodayAdvances` | GestEPIFront/src/pages/AlertesPage.tsx:110-111 | Moving today by k days keeps the count defined or undefined, and lowers it by exactly k. |
| `Alertes.DaysRemainingGrowsWithLastControl` | GestEPIFront/src/pages/AlertesPage.tsx:100-111 | A later last inspection never gives fewer days remaining. |
| `Alertes.DaysRemainingGrowsWithInterval` | GestEPIFront/src/pages/AlertesPage.tsx:105-111 | For two positive own intervals, the counts differ by exactly the difference of the intervals. |
| `Alertes.ElevenDaysLeftWarns` | GestEPIFront/src/pages/AlertesPage.tsx:97-120 | Example: last inspection on day 0, interval 30, today day 19. The count is 11 and the colour is the warning colour. |
| `Alertes.UrgencyColor` | GestEPIFront/src/pages/AlertesPage.tsx:114-120 | Null gives `inherit`. Below 7 (negatives included) gives `error.main`. 7 to 14 gives `warning.main`, and 15 or more gives `success.main`. Each class is an if-and-only-if. |
| `Alertes.UrgencyColorMonotone` | GestEPIFront/src/pages/AlertesPage.tsx:114-120 | More days never give a more alarming colour. |
| `Alertes.UrgencyColorKeys` | GestEPIFront/src/pages/AlertesPage.tsx:114-120 | Each urgency class maps to the theme key the page writes: `inherit`, `error.main`, `warning.main`, `success.main`. |
| `Alertes.OverdueSharesUrgentColor` | GestEPIFront/src/pages/AlertesPage.tsx:116-117 | Every overdue count has the same colour as a count of 0: `error.main`. |
| `Alertes.Highlighted` | GestEPIFront/src/pages/AlertesPage.tsx:204 | A row is highlighted exactly when the count is present and negative. A count of 0 is falsy and is not highlighted. |
| `Alertes.DaysCellOf` | GestEPIFront/src/pages/AlertesPage.tsx:212-224 | Null shows "-". A negative count shows as late by its absolute value. Any other count is shown as is, with the warning icon exactly when it is below 15. |
| `Alertes.Decimal` | GestEPIFront/src/pages/AlertesPage.tsx:216-221 | A count is printed as a non-empty string of decimal digits. |
| `Alertes.DecimalRoundTrip` | GestEPIFront/src/pages/AlertesPage.tsx:216-221 | Reading the printed count back gives the count. |
| `Alertes.LateTextShowsMagnitude` | GestEPIFront/src/pages/AlertesPage.tsx:213-217 | An overdue item reads "En retard de N jour(s)", where N reads back as the magnitude of the count. |
| `Alertes.DaysText` | GestEPIFront/src/pages/AlertesPage.tsx:212-224 | "-" exactly for no schedule. A late cell reads "En retard de N jour(s)" and any other cell "N jour(s)". In both, N reads back as the cell's count. |
| `Alertes.LastControlShown` | GestEPIFront/src/pages/AlertesPage.tsx:208 | The "last inspection" column's `dernier_controle or date_mise_service` is exactly the base date that scheduling uses. |
| `Alertes.Row` | GestEPIFront/src/pages/AlertesPage.tsx:201-226 | A row is highlighted exactly when its cell says late, and then it has the error colour. "No schedule" goes with `inherit` and a "-" date. A warning icon never goes with the success colour. The "last inspection" column shows the base date that scheduling uses. The days cell and the colour are those of today's count. The row is highlighted exactly when today's count is present and negative. The next-date column is `NextControlDate`, and the type column is the type's label or "-". |
| `ControleList.Find` | GestEPIFront/src/pages/ControleList.tsx:176 | `find` returns the position of the first element satisfying the predicate. It returns none exactly when no element satisfies it. |
| `ControleList.EpiLabel` | GestEPIFront/src/pages/ControleList.tsx:175-178 | "-" exactly when no EPI has the identifier. Otherwise the label of the first EPI with it: "identifiant - marque modele". |
| `ControleList.GestionnaireLabel` | GestEPIFront/src/pages/ControleList.tsx:180-183 | "-" exactly when no manager has the identifier. Otherwise "nom prenom" of the first manager with it. |
| `ControleList.StatutLabel` | GestEPIFront/src/pages/ControleList.tsx:185-188 | "-" when no status has the identifier. Otherwise the label of the first status with it. |
| `ControleList.EpiLabelIgnoresLaterDuplicates` | GestEPIFront/src/pages/ControleList.tsx:175-178 | Once the list holds a match, appending records (including ones with the same identifier) never changes the label. |
| `ControleList.EpiCell` | GestEPIFront/src/pages/ControleList.tsx:224 | The embedded EPI wins over the lookup. The lookup is used only when nothing is embedded. |
| `ControleList.GestionnaireCell` | GestEPIFront/src/pages/ControleList.tsx:225 | The embedded manager wins over the lookup. |
| `ControleList.StatutCell` | GestEPIFront/src/pages/ControleList.tsx:226 | The embedded status wins over the lookup. |
| `ControleList.EmbeddedCellsIgnoreLists` | GestEPIFront/src/pages/ControleList.tsx:224-226 | A cell with an embedded record does not depend on the loaded lists. |
| `ControleList.EmbeddedEpiTextIsShorter` | GestEPIFront/src/pages/ControleList.tsx:224 | The embedded EPI text is a strict prefix of the looked-up label of the same EPI (line 177), because it leaves out the model. |
| `ControleList.CopyOf` | GestEPIFront/src/pages/ControleList.tsx:102 | `{ ...controle }`: every field of the inspection appears in the draft with its value. Absent ones read as undefined, and there are no other keys. |
| `ControleList.SubmitRequest` | GestEPIFront/src/pages/ControleList.tsx:148-153 | Update exactly when editing and the draft's id is truthy, and the update is sent under that id. Otherwise create. The whole draft is sent either way. |
| `ControleList.EditOfStoredControleUpdates` | GestEPIFront/src/pages/ControleList.tsx:101-149 | Editing an inspection with a non-zero id submits an update under that id, with its own fields. |
| `ControleList.EditWithoutIdCreates` | GestEPIFront/src/pages/ControleList.tsx:148-153 | Editing an inspection whose id is missing or 0 submits a create. |
| `ControleList.NotEditingAlwaysCreates` | GestEPIFront/src/pages/ControleList.tsx:148-153 | Outside editing mode a submission is a create for every draft. |
| `ControleList.ControleDialog.constructor` | GestEPIFront/src/pages/ControleList.tsx:44-47 | The initial state: dialog closed, not editing, empty draft, and a closed success notice with an empty message. |
| `ControleList.ControleDialog.AddClick` | GestEPIFront/src/pages/ControleList.tsx:93-99 | The draft holds only `date_controle` = now, editing is off, and the dialog is open. The notice does not change. |
| `ControleList.ControleDialog.EditClick` | GestEPIFront/src/pages/ControleList.tsx:101-105 | The draft is the copy of the inspection, editing is on, and the dialog is open. |
| `ControleList.ControleDialog.DialogClose` | GestEPIFront/src/pages/ControleList.tsx:124-126 | Only the dialog closes. The draft and the mode are kept. |
| `ControleList.ControleDialog.InputChange` | GestEPIFront/src/pages/ControleList.tsx:128-131 | The named field takes the typed text, and every other field reads the same as before. |
| `ControleList.ControleDialog.SelectChange` | GestEPIFront/src/pages/ControleList.tsx:133-137 | The field the select names (the empty name when it has none) takes the chosen value as text, and every other field reads the same as before. |
| `ControleList.ControleDialog.DateChange` | GestEPIFront/src/pages/ControleList.tsx:139-144 | The new draft is the old one with `date_controle` set to the date, or to undefined when the picker is cleared. So the field is falsy exactly when the picker was cleared, and other fields are unchanged. |
| `ControleList.ControleDialog.Submit` | GestEPIFront/src/pages/ControleList.tsx:146-161 | It makes the request `SubmitRequest` decides. On success the dialog closes and a success notice names the action (created or updated). On failure an error notice opens and the dialog keeps its state. The draft and the mode never change. |
| `ControleList.ControleDialog.CloseSnackbar` | GestEPIFront/src/pages/ControleList.tsx:346 | Closing the notice sets `open` to false and keeps its message and severity. |

## Left out

- Data loading: `fetchEpisWithUpcomingControls`, `fetchControles`, `fetchEpis`, `fetchGestionnaires`, `fetchStatuts`, the `useEffect` hooks and the `loading` flag. These are network I/O. The loaded lists are parameters of the lookups.
- Threshold filtering and ordering of alerts: the server's `getAlerts(daysThreshold)` does this. Its code is not part of this model, so no filter is modelled. The threshold slider's bounds (5 to 90, step 5) are UI only.
- `Alertes.DaysRemaining`: it does not model time of day, so it can be one more than the page shows. The page's `differenceInDays` compares the due date (midnight UTC, about 01:00 in France) with the current instant and drops an unfinished last day. For a due date after today, once the clock passes the due date's time of day, the page shows base + interval - today - 1. So the page shows 0 both on the due day and on the day before. A count the model puts at 7 or 15 shows as 6 or 14 for most of the day, and in `Alertes.ElevenDaysLeftWarns` the page shows 10 after about 01:00. Overdue counts match the model, except before the due date's time of day, when the page shows one day less of lateness.
- Date parsing and the date-fns internals (`parseISO`, `addDays`, `format`, locales, time zones): dates are day numbers, and `format` is a parameter. An unparseable date string is not modelled. In the source it becomes an Invalid Date and a NaN day count.
- JavaScript values the model's types exclude: NaN or empty-string intervals, and a present but empty date string (modelled as absent).
- `handleDeleteClick` with its `window.confirm` prompt, `handleViewDetails`, `handleViewEpiDetails`, `handleCreateControle` and `navigate`: browser prompts and routing.
- React state batching: each handler is modelled as taking effect before the next event. The source's handlers build the new draft from the value captured at render time.
- The notice on the alerts page (AlertesPage.tsx:42-55, 252): it is set only by the data-loading error path.
- Rendering (JSX, MUI components, icons other than the ones that carry meaning), and the back end (`middlewares.ts`, whose `validateRequest` does nothing; `types.ts`, declarations only; `index.ts`, server start-up).
