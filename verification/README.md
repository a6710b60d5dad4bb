# Verified models of the router, the broker, the dispatcher and the specification tools

This project models, in Dafny, the parts of the repository whose behaviour is spread over many steps, many
requests or two readings of one document, and proves what they are for. Paths are those of the repository;
each row below names the lines it models.

| part | files here | modelled from |
|---|---|---|
| Chat admission: a gate whose capacity changes while it is held, and a lane in front of it that keeps the owner's slots free | `AdmissionSystem`, `AdmissionGates` | `scripts/files/stream_admission.py`, `scripts/files/workforce_lane.py` |
| The escalation broker: reservations and settlements under dollar and call caps, an append-only ledger that survives torn writes, a resend rule, a text filter | `EscalationBudget`, `EscalationPricing`, `EscalationOvershoot`, `EscalationBroker`, `LedgerText`, `SafeMessage` | `scripts/files/escalation.py` |
| Schema vendoring: the closure over references and the translation from OpenAPI 3.0.1 to JSON Schema draft 2020-12 | `SchemaTranslation`, `SchemaLiterals`, `SchemaMeaning`, `SchemaDifferences`, `SchemaClosure` | `vcf-spec-tools/scripts/vendor_schema.py` |
| Documents: the bounded walk, the budgeted diff, the diff as a patch, masking, pointers, the credential walk | `Documents`, `DiffEngine`, `DiffRun`, `DiffPatch`, `DiffMask`, `Pointers`, `Credentials` | `vcf-spec-tools/vcfspec/documents.py`, `mcp_server.py`, `api.py`, `credentials.py` |
| The search cache (TTL and least recently used) and the incremental stream parser | `TavilyCache`, `StreamParser` | `scripts/files/tavily_cache.py`, `scripts/files/router-app.py` |
| The dispatcher's label protocol | `Dispatcher` | `scripts/files/agent_runner_dispatch.py` |

`Options`, `Text` and `JsonValues` hold what several of these share. Where the source updates an object in
place the model is a class, and its methods are proved against functions on values; the properties are lemmas
about those functions. Where requests interleave the model is a transition system, and the class methods are
proved to be its steps.

Conventions. A step of the admission system is the code between two awaits; an acquire that is cancelled
takes nothing more, and a release, which runs shielded, cannot be interrupted. Money and time are real
numbers. What the outside world answers (a send, an edit that partly applies, a write that stops short, a
clock) is a parameter or a free choice, so the results hold for every answer; the token counts that the
provider reports are bounded by nothing but their sign. The read of the ledger file allows another process to
append meanwhile (`EscalationBroker.Ledger.Rows`); the results about budgets and calls take one broker to be
the only writer of its ledger, as the code does. An HTTP status other than 200 is taken to bill nothing, as the
code takes it; the documentation says so of error statuses only.

What the proofs found that the repository's own documentation does not say:

- The documentation allows a cap to be overshot by one call's estimation error. After a grant that holds exactly
  when at most one of the calls then in flight arrived since the start of the grant's month and has a price above
  zero (`EscalationOvershoot.OvershootIsOneCallsIff`); for a grant at such a price, exactly when no other of them
  did (`EscalationOvershoot.NoOtherCounts`). With more in flight their excesses add up, which happens from an
  empty ledger wherever two priced asks are let in (`EscalationOvershoot.TwoCallsOvershootTwice`), and
  `EscalationBudget.BudgetIsSafe` is the bound that always holds.
- A call that may have been billed is recorded at no cost exactly when its reported usage, or without a readable
  one its worst case, comes to at most half a micro-dollar (`EscalationBroker.ZeroChargeIff`). An answer of
  status 200 that carries no usage is one: it is recorded at nothing, not at its worst case
  (`EscalationBroker.MissingUsageIsFree`).
- A ledger write that raises after its row got out leaves the row in the file and the reservation held, so the
  broker counts that call twice until it restarts. What was really committed stays within the same bounds.
- The translation treats property names and literal values like keywords, so a property or an enum value that
  uses the name of a dropped keyword is lost, and siblings of a reference begin to count
  (`SchemaDifferences.DroppedPropertyChangesMeaning`, `SchemaDifferences.EnumKeptIff`,
  `SchemaDifferences.SiblingsStartToCount`). Within the conditions of `SchemaMeaning.MeaningKept` the meaning is
  kept; besides these families they exclude exclusive bounds that are no booleans, plain keywords whose
  values the translation rewrites, properties whose schemas are no objects, and references to anything but a
  component schema.

The code's own comment says that lane waiters look again at the capacity from time to time;
`AdmissionSystem.OnlyGrowthStrands` says exactly when they have to.

In the OpenAPI reading `nullable: true` adds null to the `type` beside it and does nothing without one, as
the clarified text of OpenAPI 3.0.3 has it.

## Model

| member | source | states |
|---|---|---|
| AdmissionSystem.RunKeepsSound | scripts/files/workforce_lane.py:26-93 | Every run of arrivals, grants, refusals, cancels, disconnects, releases and capacity changes keeps both counters equal to the number of requests holding a slot, with no waiter asleep beside a free slot |
| AdmissionSystem.StepKeepsSound | scripts/files/stream_admission.py:83-166 | Each of the eleven steps keeps that invariant |
| AdmissionSystem.ScopedWithinLane | scripts/files/workforce_lane.py:59-85 | Chat in-use is owners plus scoped holders, and scoped chat holders never outnumber the lane's in-use count |
| AdmissionSystem.OwnersHoldTheReserve | scripts/files/workforce_lane.py:1-8 | In every reachable state with the lane within its capacity, a full chat gate has at least min(capacity, reserve) owners in it |
| AdmissionSystem.OwnerIsServedAtOnce | scripts/files/workforce_lane.py:3-5 | An owner finds a slot free while fewer owners than the reserve and the capacity are in |
| AdmissionSystem.ScopedGrantIsWithinLane | scripts/files/workforce_lane.py:67-79 | A scoped request is admitted only by a look at a free chat slot at an instant when the lane is within max(0, capacity - reserve), and scoped holders stay within it |
| AdmissionSystem.ChatLookIff | scripts/files/workforce_lane.py:67-79 | A look at the chat gate lets in exactly while fewer than the capacity are in and, for a scoped request, the lane holds at most capacity - reserve; with a slot free and the lane beyond that both slots go back; with none it sleeps |
| AdmissionSystem.LaneLookIff | scripts/files/workforce_lane.py:41-51 | A look at the lane takes a slot exactly while it holds fewer than capacity - reserve, is refused exactly when the reserve leaves none, and else sleeps |
| AdmissionSystem.ScopedIsServedAtOnce | scripts/files/workforce_lane.py:41-80 | In every reachable state with fewer than capacity - reserve lane holders and a free chat slot, a scoped request that arrives is let in by its two looks |
| AdmissionSystem.OnlyShrinkOverfillsLane | scripts/files/workforce_lane.py:33-35 | The lane leaves its capacity exactly when a refresh shrinks the layout below what it holds |
| AdmissionSystem.OverfilledLaneAdmitsNone | scripts/files/workforce_lane.py:74-78 | A scoped request whose chat slot comes after such a shrink gives both slots back and is refused |
| AdmissionSystem.OverfullOnlyFalls | scripts/files/stream_admission.py:55-64 | While the capacity stays, neither gate ever holds more than the larger of what it held and what it may hold |
| AdmissionSystem.FullGatesOnlyFall | scripts/files/stream_admission.py:59-61 | No step but a refresh adds to a full gate |
| AdmissionSystem.NoLostWakeUp | scripts/files/stream_admission.py:83-100 | In every reachable state a request asleep at the chat gate and not notified implies in-use at or above a capacity of at least one |
| AdmissionSystem.OnlyGrowthStrands | scripts/files/workforce_lane.py:41-51 | A lane waiter comes to sleep beside a free lane slot exactly when a refresh makes room in the lane while someone sleeps there |
| AdmissionSystem.LanePollIsNeeded | scripts/files/workforce_lane.py:20-51 | Such a sleeper saw a lane that was full for it, and its next look takes the slot |
| AdmissionSystem.StreamsHoldSlots | scripts/files/stream_admission.py:13-17 | In every reachable state at most as many streams are sending as the chat gate counts slots |
| AdmissionSystem.EndedRequestCanFinish | scripts/files/stream_admission.py:152-166 | A request whose stream has ended always has a clean-up step left until it is done |
| AdmissionSystem.EndedRequestFinishes | scripts/files/stream_admission.py:152-166 | Each such step brings it nearer to done, and no step of any request takes it back |
| AdmissionSystem.NoSlotLeaks | scripts/files/stream_admission.py:143-166 | Every finished request has given back exactly what it took, each slot at most once, and once every stream has ended and been cleaned up both gates are at zero |
| AdmissionGates.AdmissionGate.TryAcquire | scripts/files/stream_admission.py:83-87 | One look takes a slot exactly when in-use is below the capacity, else puts the waiter to sleep |
| AdmissionGates.AdmissionGate.Release | scripts/files/stream_admission.py:89-95 | Gives one slot back and wakes every waiter |
| AdmissionGates.AdmissionGate.SetCapacity | scripts/files/stream_admission.py:97-100 | The capacity is at least one, nothing admitted is evicted, every waiter is woken |
| AdmissionGates.AdmissionGate.RefreshCapacityOnce | scripts/files/stream_admission.py:111-130 | An unreadable or non-positive slot count changes nothing; an unchanged one wakes nobody |
| AdmissionGates.ReservedLane.TryAcquire | scripts/files/workforce_lane.py:41-51 | Takes a lane slot below max(0, capacity - reserve), refuses at capacity zero, else sleeps |
| AdmissionGates.LaneThenChat.TryLane | scripts/files/workforce_lane.py:67-68 | The code's look at the lane is the transition system's lane step, taken exactly below max(0, capacity - reserve) |
| AdmissionGates.LaneThenChat.TryChat | scripts/files/workforce_lane.py:69-79 | The code's look at the chat gate, with the look back at the lane, is the transition system's chat step; it lets in exactly with a free chat slot and, for a scoped request, the lane within max(0, capacity - reserve) |
| AdmissionGates.LaneThenChat.Cancel | scripts/files/workforce_lane.py:70-73 | A cancel while waiting gives a lane slot in hand back, and moves the system accordingly |
| AdmissionGates.LaneThenChat.Release | scripts/files/workforce_lane.py:81-85 | Release in reverse order is the two release steps, ending in done |
| AdmissionGates.LaneThenChat.EndStream | scripts/files/stream_admission.py:151-166 | However a stream ends, a slot that was taken, even in the instant of giving up, goes back once; otherwise the acquire is cancelled |
| AdmissionGates.LaneThenChat.Refresh | scripts/files/stream_admission.py:111-130 | A refresh is the system's resize step or nothing |
| EscalationBudget.BudgetIsSafe | scripts/files/escalation.py:357-372 | Over every run, recorded cost plus the reservations of calls not yet recorded, in the latest grant's day and month windows and in later ones, stays within the cap, half a rounding unit, and the excess of the calls recorded since that grant; the broker's own count exceeds that by no more than the reservations that outlived their row |
| EscalationBudget.StepKeeps | scripts/files/escalation.py:451-476 | Reserving, releasing, settling and refusing each keep the budget invariant |
| EscalationBudget.CleanWritesCountOnce | scripts/files/escalation.py:471-480 | While no write raises after its row got out, the broker's count is what is committed |
| EscalationOvershoot.OvershootIsOneCallsIff | scripts/files/escalation.py:351-380 | After a grant, everything the broker can do before the next, every call reserved at its worst case and charged at its price, stays within the caps, half a rounding unit and the largest excess of a single call, if and only if at most one call then in flight arrived since the start of the grant's month and has a price above zero |
| EscalationOvershoot.NoOtherCounts | scripts/files/escalation.py:375-380 | For a grant at a price above zero that is: no call already in flight arrived since then at such a price |
| EscalationOvershoot.OneCallsExcess | scripts/files/escalation.py:471-480 | While at most one call in flight counts in a window, what is committed there grows by one excess at most before the next grant, and by none when no call counts |
| EscalationOvershoot.TwoExceed | scripts/files/escalation.py:740-778 | Two calls in flight that count can be answered so that each exceeds its reservation by more than any amount, and what is committed grows by both |
| EscalationOvershoot.TwoCallsOvershootTwice | scripts/files/escalation.py:451-480 | In every configuration with a price for asks whose caps and call limit admit two of their worst cases, the broker has a run from an empty ledger that passes the monthly cap by more than the largest excess |
| EscalationPricing.RunKeepsPriced | scripts/files/escalation.py:735-739 | On every run at the broker's prices each reservation held is the worst case of some brief at its own price |
| EscalationPricing.PricesArePerMillion | scripts/files/escalation.py:346-348 | A million tokens read cost the input price, a million written the output price, and costs add up |
| EscalationBudget.SettleCountsOnce | scripts/files/escalation.py:471-480 | Recording turns one call under way into one counted row, unless it falls before the window; the broker's own count does so too, except that a call whose write raised after its row got out counts twice |
| EscalationBudget.CallLimitsHold | scripts/files/escalation.py:357-372 | The per-day limits, once respected, are never exceeded by the calls made and under way |
| EscalationBudget.GrantedIffAffordable | scripts/files/escalation.py:357-372 | The check grants exactly what leaves both dollar caps and the call limits of its kind unbroken once added, and otherwise names the first limit that would break |
| EscalationBudget.RowAdds | scripts/files/escalation.py:424-440 | What one row adds, by its fields: its cost in the windows it does not precede, the day cap for a missing or negative cost, one call of its kind unless refused; a missing time counts in every window |
| EscalationBudget.Round6IsNearest | scripts/files/escalation.py:446-448 | Sums are rounded to the nearest micro-dollar, ties to even |
| EscalationBudget.LaterWindow | scripts/files/escalation.py:424-449 | A later window start counts no more spending and no more calls |
| EscalationBroker.Ledger.Rows | scripts/files/escalation.py:388-406 | The cached rows are those of the file as it was at some moment during the call, even when another process appends meanwhile |
| EscalationBroker.Ledger.Append | scripts/files/escalation.py:408-422 | The row is in the file exactly when all of it got out, with or without its newline and whether or not the write then raised; no other row is disturbed |
| EscalationBroker.Ledger.CurrentUsage | scripts/files/escalation.py:424-449 | Usage is what the ledger's rows and the reservations add up to |
| EscalationBroker.Ledger.Reserve | scripts/files/escalation.py:451-464 | A reservation is held exactly when every limit still holds with it added; a refusal names the first that would not |
| EscalationBroker.Ledger.Settle | scripts/files/escalation.py:471-480 | The reservation is dropped exactly when the write did not raise, so one that raised keeps it held even beside its row |
| EscalationBroker.Post | scripts/files/escalation.py:549-579 | One or two sends, a second exactly after one never sent or answered 429 or 500 and above, if the caller is still there after the pause; what is sent again cannot have been billed; the reply is the last one's |
| EscalationBroker.ChargeRow | scripts/files/escalation.py:740-778 | The row charges the reported usage, nothing when the call was never sent or refused by status, and the worst case otherwise |
| EscalationBroker.BilledIsCharged | scripts/files/escalation.py:533-579 | A send that may have been billed is charged its reported usage or the worst case, one that cannot have been nothing, unless its error has a name the code does not know as never sent |
| EscalationBroker.ZeroChargeIff | scripts/files/escalation.py:751-778 | A call that may have been billed is recorded at zero exactly when its reported usage, or without a good one its worst case, is at most half a micro-dollar |
| EscalationBroker.MissingUsageIsFree | scripts/files/escalation.py:762-765 | An answer of status 200 without a usage may have been billed and is recorded at zero whatever was reserved |
| EscalationBroker.Begin | scripts/files/escalation.py:709-739 | Before the call, the broker takes exactly the state machine's reserve or refuse step, the reservation being the worst case at its price |
| EscalationBroker.Record | scripts/files/escalation.py:740-778 | Recording is the state machine's settle step at the broker's prices, with the arrival of the call and the outcome its write had: row and no reservation, no row and the reservation, or both |
| EscalationBroker.MakeCall | scripts/files/escalation.py:751-778 | The sends of an admitted call and its record: at most the last send can have been billed, the row charges what it stands for, and zero exactly when that rounds to nothing |
| EscalationBroker.Handle | scripts/files/escalation.py:694-778 | A whole call makes at most two sends of which at most the last can be billed and is then charged; a write that succeeds puts the row in place of the reservation, one that raises keeps the reservation, with the row exactly when all of it got out; a refused call sends and holds nothing |
| EscalationBroker.ReleaseCall | scripts/files/escalation.py:466-469 | Dropping the reservation of a call that writes no row is the state machine's release step |
| EscalationBroker.RowUsage | scripts/files/escalation.py:424-440 | The loop over the rows computes spending and calls per window |
| LedgerText.AppendAddsOneRow | scripts/files/escalation.py:388-422 | For any file contents, torn last line included, parsing after an append gives the old rows and the new one |
| LedgerText.WriteAddsIffWhole | scripts/files/escalation.py:408-422 | A write cut short after any number of characters adds the row exactly when all of the row got out |
| LedgerText.TornAddsNothing | scripts/files/escalation.py:408-422 | A write cut short anywhere within the row adds no row and disturbs none |
| LedgerText.LinesTorn | scripts/files/escalation.py:408-422 | Closing a torn line changes no line |
| LedgerText.LinesConcat | scripts/files/escalation.py:388-406 | After a complete line, appended text adds its own lines |
| SafeMessage.SafeMessage | scripts/files/escalation.py:195-204 | The repeated search-and-insert loop ends and computes the one-pass filter |
| SafeMessage.BreakOne | scripts/files/escalation.py:199-203 | Each insertion removes exactly one forbidden digit run, which is why the loop ends |
| SafeMessage.SafeIsSafe | scripts/files/escalation.py:189-204 | The result holds no retry digit run and no retry phrase, is the phrase-free text once the inserted apostrophes are removed, and is a fixed point |
| SafeMessage.RunsAreThese | scripts/files/escalation.py:191 | The forbidden runs are the eight status codes |
| SafeMessage.GuardKeepsNoPhrase | scripts/files/escalation.py:195-204 | Inserting apostrophes creates no retry phrase |
| SafeMessage.DroppedHasNoPhrase | scripts/files/escalation.py:195-198 | Replacing the phrases leaves none, not even one formed across a replacement |
| SchemaTranslation.Translate | vcf-spec-tools/scripts/vendor_schema.py:82-112 | The recursive translation, in whatever order it visits the keys, computes the specified one |
| SchemaTranslation.Adjust | vcf-spec-tools/scripts/vendor_schema.py:105-112 | The adjustments after the pass give the specified fields |
| SchemaMeaning.MeaningKept | vcf-spec-tools/scripts/vendor_schema.py:82-112 | An instance is valid under a schema read as OpenAPI 3.0.1 exactly when it is valid under the translation read as draft 2020-12, to every depth of reference |
| SchemaMeaning.AcceptanceKept | vcf-spec-tools/scripts/vendor_schema.py:82-112 | So both accept the same instances, accepting being valid to every depth from some depth on |
| SchemaLiterals.UntouchedIff | vcf-spec-tools/scripts/vendor_schema.py:82-112 | The translation leaves a value as it is exactly when it holds no dropped key, no boolean exclusive bound and no component reference at any depth |
| SchemaLiterals.TranslationLightens | vcf-spec-tools/scripts/vendor_schema.py:82-112 | Every other value it makes strictly lighter in keys and references |
| SchemaMeaning.TypeKept | vcf-spec-tools/scripts/vendor_schema.py:105-107 | A nullable type accepts exactly what the translated list of types accepts |
| SchemaMeaning.LowerKept | vcf-spec-tools/scripts/vendor_schema.py:98-112 | A minimum with its exclusive flag means what the translated bounds mean |
| SchemaMeaning.UpperKept | vcf-spec-tools/scripts/vendor_schema.py:98-112 | The same for a maximum |
| SchemaDifferences.PropertiesSurvive | vcf-spec-tools/scripts/vendor_schema.py:90-94 | A property survives exactly when it is not named like a dropped key |
| SchemaDifferences.DroppedPropertyChangesMeaning | vcf-spec-tools/scripts/vendor_schema.py:90-94 | The schema of a property with a dropped name keeps its meaning exactly when it rejects nothing |
| SchemaDifferences.SiblingsStartToCount | vcf-spec-tools/scripts/vendor_schema.py:95-97 | With siblings beside a reference the output accepts exactly what the input and the siblings accept |
| SchemaLiterals.ScalarsUntouched | vcf-spec-tools/scripts/vendor_schema.py:82-87 | Lists of scalar literals are never rewritten |
| SchemaDifferences.EnumKeptIff | vcf-spec-tools/scripts/vendor_schema.py:82-103 | An enum keeps its meaning exactly when the translation leaves each of its literals alone |
| SchemaClosure.Walk.CollectAll | vcf-spec-tools/scripts/vendor_schema.py:71-79 | From empty sets, `seen` ends as the defined and `missing` as the undefined names reachable from the root |
| SchemaClosure.Walk.Collect | vcf-spec-tools/scripts/vendor_schema.py:71-79 | Each call adds only names reachable from its own and leaves everything it adds closed under references |
| SchemaClosure.RefsAreRewritten | vcf-spec-tools/scripts/vendor_schema.py:95-97 | The references of the output are exactly the rewritings of those not dropped with their key |
| SchemaClosure.Vendor | vcf-spec-tools/scripts/vendor_schema.py:201-216 | The walk either finds a reachable name without a schema, and then there is no bundle, or the bundle is the translation of exactly the reachable schemas |
| SchemaClosure.BundleIsComplete | vcf-spec-tools/scripts/vendor_schema.py:201-216 | With nothing missing, every reference of the bundle resolves exactly when every reference left in a reachable schema names a component schema or is in bundle form |
| SchemaClosure.ResolvesIff | vcf-spec-tools/scripts/vendor_schema.py:95-97 | A rewritten reference resolves to a name exactly when it named that component or was already in bundle form |
| SchemaClosure.VendoredMeansTheSame | vcf-spec-tools/scripts/vendor_schema.py:201-216 | The vendored root is valid for the same instances as the root in the original document, to every depth of reference |
| SchemaClosure.VendoredAcceptsTheSame | vcf-spec-tools/scripts/vendor_schema.py:201-216 | And accepts the same instances |
| Documents.CheckLimits | vcf-spec-tools/vcfspec/documents.py:112-117 | A document passes exactly when its depth and its node count are within the limits, and then both numbers are exact |
| Documents.Inspect | vcf-spec-tools/vcfspec/documents.py:169-205 | The early-exit walk decides both limits, terminates on cyclic input, and its stack never exceeds the node limit |
| Documents.DeeperIffWalk | vcf-spec-tools/vcfspec/documents.py:169-205 | The depth exceeds a bound exactly when some path from the root is longer |
| Documents.BoundIsWhole | vcf-spec-tools/vcfspec/documents.py:169-205 | Within the bound the counts are those of the whole document |
| Documents.NodesCountOccurrences | vcf-spec-tools/vcfspec/documents.py:169-205 | The count is the number of ways down to a node of fewer steps than the bound, so a shared value counts once for every way to it |
| Documents.DepthStep | vcf-spec-tools/vcfspec/documents.py:186-205 | One iteration leaves unchanged how deep the walk will have gone |
| Documents.Visit | vcf-spec-tools/vcfspec/documents.py:192-204 | Counting children as they are pushed accounts for exactly the node's descendants, and stops past the limit |
| DiffRun.DiffDocuments | vcf-spec-tools/vcfspec/mcp_server.py:208-224 | The reported changes are the longest prefix of all changes within both limits, and the diff is called valid exactly when it is all of them |
| DiffRun.Diff | vcf-spec-tools/vcfspec/mcp_server.py:271-289 | The budgeted recursion returns what fits of the unbounded change list, counts exactly that, and is truncated just when something did not fit |
| DiffRun.DiffParts | vcf-spec-tools/vcfspec/mcp_server.py:278-314 | The same for the loops over keys and names, early break included |
| DiffRun.Emit | vcf-spec-tools/vcfspec/mcp_server.py:292-297 | One change is emitted if the budget takes its cost |
| DiffEngine.ChangeBudget.Take | vcf-spec-tools/vcfspec/mcp_server.py:246-268 | Takes a change while both limits allow it, else remembers the truncation and counts nothing |
| DiffEngine.FitsIsWithin | vcf-spec-tools/vcfspec/mcp_server.py:243-268 | What fits is within both limits |
| DiffEngine.FitsIsLongest | vcf-spec-tools/vcfspec/mcp_server.py:243-268 | One more change would break a limit |
| DiffEngine.FitsConcat | vcf-spec-tools/vcfspec/mcp_server.py:263-268 | What fits of two lists in turn is what fits of them together |
| DiffEngine.FindLastIsLast | vcf-spec-tools/vcfspec/mcp_server.py:304-305 | Of several items with one name the last stands for all |
| DiffPatch.DiffIsPatch | vcf-spec-tools/vcfspec/mcp_server.py:271-321 | Between null-free documents whose lists are keyed alike, applying the changes to the left gives the right, up to the order of keyed lists: as many items, each with its partner |
| DiffPatch.DiffFlips | vcf-spec-tools/vcfspec/mcp_server.py:271-321 | With the documents exchanged the diff is the same list with the sides of each change exchanged |
| DiffPatch.DiffIsUndone | vcf-spec-tools/vcfspec/mcp_server.py:271-321 | So the changes also lead back from the right document to the left one |
| DiffPatch.ChangesAreDeepest | vcf-spec-tools/vcfspec/mcp_server.py:278-321 | Each reported change has sides that differ and no parts that could be compared instead |
| DiffPatch.ResultApart | vcf-spec-tools/vcfspec/mcp_server.py:300-314 | A patched keyed list names no item twice |
| DiffPatch.NoChangesIffSame | vcf-spec-tools/vcfspec/mcp_server.py:271-321 | For such documents the diff is empty exactly when they are equal in that sense |
| DiffPatch.NothingChangesFromItself | vcf-spec-tools/vcfspec/mcp_server.py:271-321 | Any document differs from itself in nothing |
| DiffPatch.PlainAgainstKeyed | vcf-spec-tools/vcfspec/mcp_server.py:300-321 | A plain list against a keyed one loses what is not a mapping without reporting a change |
| DiffMask.MaskTellsOnlyShape | vcf-spec-tools/vcfspec/mcp_server.py:387-404 | Two values are masked alike exactly when they agree in shape, nulls and references |
| DiffMask.CredentialChangesTellOnlyShape | vcf-spec-tools/vcfspec/mcp_server.py:324-384 | Two changes at one position under a credentials segment, at any depth, are reported alike exactly when they differ in literals only |
| DiffMask.ReportsTellExactly | vcf-spec-tools/vcfspec/mcp_server.py:345-384 | With slash-free names a change is reported by its shape alone exactly when it sits under a credentials segment or its last name looks like a secret, and otherwise as it is |
| DiffMask.SegmentIsPrinted | vcf-spec-tools/vcfspec/mcp_server.py:324-342 | A slash-free name on the way is found as a segment of the printed path |
| DiffMask.PathsTellPositions | vcf-spec-tools/vcfspec/mcp_server.py:281 | With slash-free names different positions print different paths |
| DiffMask.SlashIsAmbiguous | vcf-spec-tools/vcfspec/mcp_server.py:281 | A name with a slash prints like two levels |
| Credentials.Findings.Walk | vcf-spec-tools/vcfspec/credentials.py:72-85 | The walk adds the pointer of exactly what is to be reported below its node |
| Credentials.ReportsOutermostViolations | vcf-spec-tools/vcfspec/credentials.py:72-111 | A position is reported exactly when it violates and nothing above it does |
| Credentials.ViolatesIff | vcf-spec-tools/vcfspec/credentials.py:72-111 | A position violates exactly when its value is no reference and it is either an entry under some name credentials other than the user name, or a scalar under a name that looks like a secret |
| Credentials.CleanIffNothingViolates | vcf-spec-tools/vcfspec/credentials.py:114-122 | No findings exactly when no entry anywhere violates |
| Credentials.CredentialFindings | vcf-spec-tools/vcfspec/credentials.py:114-122 | The findings are the pointers of the outermost violations, as many as there are of these, and none exactly for a clean document |
| Credentials.EveryFindingCounts | vcf-spec-tools/vcfspec/credentials.py:72-85 | No finding hides another: reported positions have different pointers |
| Credentials.PointersTellPositions | vcf-spec-tools/vcfspec/credentials.py:72-85 | Different positions of a document have different pointers |
| Pointers.UnescapeEscape | vcf-spec-tools/vcfspec/api.py:65-72 | Unescaping an escaped segment gives it back |
| Pointers.EscapeIsPerChar | vcf-spec-tools/vcfspec/credentials.py:53-55 | The two replacements escape each character by itself |
| Pointers.SegmentsOfPointer | vcf-spec-tools/vcfspec/api.py:75-76 | A pointer splits into its position without empty segments, so into its position exactly when there are none |
| Pointers.PointerInjective | vcf-spec-tools/vcfspec/credentials.py:72-85 | Distinct positions have distinct pointers |
| Pointers.BlockedIffBelow | vcf-spec-tools/vcfspec/api.py:59-99 | A finding is blocked exactly when a gating finding sits at or above its position and not at the root |
| Pointers.SiblingNotBlocked | vcf-spec-tools/vcfspec/api.py:79-99 | A key that only starts like a blocked one is not blocked |
| Pointers.FilterDropsOnlyBelow | vcf-spec-tools/vcfspec/api.py:102-105 | Filtering drops a finding exactly when a gating finding sits at or above its position, and keeps the others as often as they were |
| Pointers.FilterKeepsOrder | vcf-spec-tools/vcfspec/api.py:102-105 | What remains keeps its order |
| TavilyCache.TTLCache.Lookup | scripts/files/tavily_cache.py:63-75 | A lookup is the history's next state, and its answer is read off the history: the latest accepted put if that is kept and younger than the time to live, else nothing |
| TavilyCache.TTLCache.Store | scripts/files/tavily_cache.py:77-91 | A store is the history's next state: too large or unserialisable is refused, the oldest go until the limit holds |
| TavilyCache.HitIsLatestPut | scripts/files/tavily_cache.py:63-75 | A hit returns the value of the latest accepted put of its key, younger than the time to live |
| TavilyCache.StaysIff | scripts/files/tavily_cache.py:63-91 | The latest accepted put of a key is still there exactly when no get found it expired and at no moment since the key was last touched had `maxEntries` other keys been touched later and not found expired |
| TavilyCache.HitsIff | scripts/files/tavily_cache.py:63-75 | A get hits exactly when that is so and the put is younger than the time to live |
| TavilyCache.FewTouchedStays | scripts/files/tavily_cache.py:63-91 | A put no get found expired stays while fewer than `maxEntries` other keys are touched after it |
| TavilyCache.StaysIffFewTouched | scripts/files/tavily_cache.py:63-91 | And only then, in a trace at whose end no other key was last found expired |
| TavilyCache.ExpiryMakesRoom | scripts/files/tavily_cache.py:68-72 | Not so in general: an expired key that a get drops makes room for one more |
| TavilyCache.TraceKeepsLimit | scripts/files/tavily_cache.py:86-90 | On every trace keys are distinct and at most `max_entries` |
| TavilyCache.TraceKeepsRecency | scripts/files/tavily_cache.py:63-91 | Entries stand in the order of their last touch |
| TavilyCache.EvictedIsColdest | scripts/files/tavily_cache.py:86-90 | A key is evicted only when `max_entries` distinct other keys were touched after it |
| TavilyCache.LargerCacheHitsToo | scripts/files/tavily_cache.py:63-91 | On any trace a hit is also a hit, with the same value, in a cache allowed more entries |
| TavilyCache.EntriesAreLatest | scripts/files/tavily_cache.py:77-91 | Every entry is the latest accepted put of its key |
| StreamParser.ReadStream | scripts/files/router-app.py:1399-1424 | However the network cuts the response, the outcome and the leftover are those of splitting the whole text once |
| StreamParser.Drain | scripts/files/router-app.py:1402-1424 | The inner loop consumes exactly the complete events and keeps the rest |
| StreamParser.SplitResumes | scripts/files/router-app.py:1399-1404 | Splitting may stop anywhere and resume with the leftover |
| StreamParser.SplitLosesNothing | scripts/files/router-app.py:1402-1404 | Events and leftover together are the text |
| StreamParser.EventsAreWhole | scripts/files/router-app.py:1402-1404 | Each event ends at its first blank line and none is left behind |
| StreamParser.AccumulatorIsExact | scripts/files/router-app.py:1312-1348 | The calls are, per index in first-seen order, all argument fragments in order with the last non-empty id and name |
| StreamParser.ResponseAmountsTo | scripts/files/router-app.py:1399-1426 | Over a whole response, each tool call is the assembly of its own fragments, the content kept is the content sent on, complete and in order, and the finish reason is the last non-empty one, else "stop" after a [DONE] line, else none |
| StreamParser.StripIs | scripts/files/router-app.py:1408 | Stripping a data line takes off the space at both ends and nothing else |
| StreamParser.ToolCallAccumulator.FeedDeltas | scripts/files/router-app.py:1325-1344 | Feeding updates the calls as specified |
| Dispatcher.Issue.Relabel | scripts/files/agent_runner_dispatch.py:326-354 | If it returns, the labels are exactly the old ones without the removed and with the added, whatever part of each failed try was applied |
| Dispatcher.Dispatch | scripts/files/agent_runner_dispatch.py:836-894 | A model task that returns is ready again exactly after exit code 75 or 76 or a model swap without a readable verdict, else done exactly on a readable verdict other than blocked from a run that exited, else blocked; review is asked for unless it comes back or passed clean with exit code 0 |
| Dispatcher.DispatchScript | scripts/files/agent_runner_dispatch.py:699-746 | A script task that returns is ready again exactly after exit code 76, done exactly on a verdict other than blocked in its report, else blocked; review is asked for unless it comes back, was refused, or passed clean with exit code 0 |
| Dispatcher.Finish | scripts/files/agent_runner_dispatch.py:897-911 | A finish that returns replaces running by done or blocked and flags review when asked |
| Dispatcher.RefuseScript | scripts/files/agent_runner_dispatch.py:690-696 | A refused script task ends blocked, from ready or from running |
| Dispatcher.EndsInOneState | scripts/files/agent_runner_dispatch.py:836-911 | From ready alone every ending leads to exactly one of ready, done and blocked, and touches no other label |
| Dispatcher.OfferedIsReadyAlone | scripts/files/agent_runner_dispatch.py:407-422 | What the queue offers is ready alone, and after a claim that only partly applied it is offered again only if unchanged |
| Dispatcher.RunnableIsAllowed | scripts/files/agent_runner_dispatch.py:433-504 | A runnable task carries exactly one of tier a and tier b, never tier c, and tier b only where the repository is not halted |
| Dispatcher.RefusedIff | scripts/files/agent_runner_dispatch.py:433-452 | A task is refused exactly when it does not carry one tier label in all or carries tier c |
| Dispatcher.RunnableIff | scripts/files/agent_runner_dispatch.py:483-504 | A task is runnable exactly when it is not refused, its repository is ready, and for tier b not halted |
| Dispatcher.Pick | scripts/files/agent_runner_dispatch.py:483-504 | The picked task is runnable, and each one passed over before it was refused, or held by an answered halt, or its repository answered not ready; exactly the refusable ones before it are blocked and no other label changes; no question is asked twice; a call that raises ends the cycle with at most part of one refusal applied |
| Dispatcher.RefuseTier | scripts/files/agent_runner_dispatch.py:439-452 | A refusal that returns takes the task from ready to blocked; one that raises applied some part of that edit |

## Left out

- The asyncio library: steps are atomic between awaits, a condition variable behaves as documented, and a cancelled acquire takes nothing; how `asyncio.wait_for` before Python 3.12 hands a wait to a second task is not modelled, nor is fairness, because the gate allows overtaking.
- Keepalive comments, response bodies and headers of the streaming responses: they carry no admission state. Non-streamed requests (`admitted`, `async with`) are the same steps with no stream between them.
- HTTP, git, the issue service and the file system, except as free choices of what they answer.
- Floating-point rounding, time zones and daylight saving: money and time are real numbers, and the day and month starts are given in order.
- Ledger bytes: the ledger is modelled as decoded text, not UTF-8 bytes, and the codec of one row is any one that reads back what it wrote on one line.
- The broker's duplicate check, its rejection breaker, brief parsing and validation, `estimate_tokens` and the kept briefs: their outcomes enter as the refusal codes and the token estimate of the brief.
- SafeMessage.SafeMessage: the regular-expression engine is modelled by the fixed digit runs and phrases only.
- `_ensure_tool_call_ids`, the stripping of thinking blocks and context markers, and forwarding to the client: the stripping works per chunk and has no whole-stream meaning.
- StreamParser.ReadStream: decoding one data line is an arbitrary function of the line.
- SchemaMeaning.MeaningKept: the keywords modelled are type, nullable, enum, the bounds, properties, additionalProperties, items, not, allOf, anyOf and oneOf; the keywords whose values are no schemas (lengths, patterns, counts, required, format) keep any one meaning that both dialects share, and format is among them.
- SchemaTranslation.Translate: a nullable object whose type is neither a name nor a list makes the code raise; such input is excluded.
- The refusal to overwrite a changed bundle, digests and files of the vendoring script.
- Documents.CheckLimits: parsing, the text-size and alias limits and the duplicate-key check come before this walk; a parsed document is a graph, so shared and cyclic values are covered.
- DiffEngine.ItemKey: item names that are no text count as absent, and lists whose names tie as text (a missing name beside the text None) are ordered one fixed way.
- Not-a-number and infinite numbers in documents: numbers are reals, so every value equals itself.
- DiffPatch.DiffIsPatch: documents with nulls, and lists that mix keys or repeat names, are outside it; there the diff loses changes, as DiffPatch.PlainAgainstKeyed shows for one case.
- DiffMask.CredentialChangesTellOnlyShape: letters are lowered as in ASCII, and the two patterns (what is a reference, which key names look like credentials) are arbitrary predicates.
- The redaction of whole envelopes, rule tables, probes and the vendored-schema validator.
- Credentials.CredentialFindings: findings are a set of pointers; the order of the report and its texts are not modelled.
- `cache_key`, HTTP status filtering and JSON size of the search cache: the key and the serialised size are given.
- Mirrors, checkouts, timeouts, reports and logs of the dispatcher, and posting comments, except that a comment may fail.
