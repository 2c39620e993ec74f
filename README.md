# Freelancer proposal and contract wizards, modelled in Dafny

The repository holds two browser wizards.

- **Proposal wizard** (JavaScript). The user walks through:
  - choosing services package type by package type;
  - entering the client's details;
  - setting payment conditions per package;
  - previewing the proposal.

  The logic behind it lives in `src/utils/proposalCalc.js` and in inline copies inside the step components. That logic prices line items, groups them by package type, totals them, and merges the packages' installment plans into one schedule of ranges `{ de, ate, valor }`. A Redux slice holds the proposal: client, services, term, payment conditions and details.
- **Contract wizard** (TypeScript). It fills a contract or *distrato* form; a store clamps the current step to 0..3. Validators check each step. A placeholder map is built from the form, and `{{KEY}}` templates are interpolated with it.

This project models that logic and proves what it promises.

**Values and money**
- JavaScript values are a datatype `Js.JsValue`.
- Numbers are exact hundredths (`Num(h)`), so money is integer cents. Sums are exact, and `toFixed(2)` is an explicit rounding of a quotient to cents (`Money.RoundDiv`).
- Plain objects are maps from strings to values.
- An object spread `{ ...a, ...b }` is `Js.Spread`.

**Code that mutates state**
- The reducers that assign to the state (the proposal slice and the contract store's `ui` slice) and the service step's React state become classes: `ProposalStore.Proposal`, `ContractStore.UiState` and `Servicos.ServicosStep`. Their methods change fields in place, and their contracts state the whole new state.
- The `form` slice's reducers `patchForm` and `resetForm` return a new form rather than assign to it, so they stay pure functions (`ContractStore.PatchForm`, `ContractStore.ResetForm`).
- Loops that fill an accumulator become methods with loops and invariants, each proved against a specification function:
  - `groupByType`'s `reduce`;
  - `calcTypeTotals`' `forEach`;
  - the two loops of `calcParcelasAgrupadas`;
  - `interpolateObject`;
  - the client step's `handleNext`.
- The validators' `push` sequences become straight-line methods proved equal to `Errors(...)` of their list of checks.

**Foreign calls**
- The pt-BR currency formatter (`toLocaleString` / `Intl.NumberFormat`) is a function parameter: `formatMoney` in `Placeholders` and `formatBrl` in `BuildMap`.
- The order in which `Object.entries` enumerates keys is a parameter (`entries`) where the code iterates over it (`Cliente.HandleNext`, `Placeholders.InterpolateObject`). Their contracts show that the result does not depend on it.
- A lemma also proves that the totals are the same whatever the order of the input.

Modules follow the source files:
- `Js`: JavaScript semantics used by the code.
- `Money`: `parseMoney`, `parseCurrency`, rounding to cents.
- `Pricing`, `Grouping`, `Installments`: `proposalCalc.js`.
- `Catalog`, `Apresentacao`, `Preview`, `Condicoes`, `Servicos`, `Cliente`: the proposal steps.
- `ProposalStore`: `proposalSlice.js`.
- `ContractForm` and `ContractStore`: `store/index.ts`.
- `Placeholders`: `mergePlaceholders.ts`.
- `BuildMap`: `buildMap.ts`.
- `Validators`: `validators.ts`.

Where the written description of the system and the code disagree, the model follows the code:

- Range compression in `calcParcelasAgrupadas` compares amounts with a strict `!==`; there is no tolerance. In cents, two neighbouring ranges therefore always differ. A range whose amount rounds to 0 cents can exist.
- `toBRLNoSymbol("")` formats 0, since `Number("")` is 0. It does not return `""` (`BuildMap.ToBrlBlank`).
- `parseISODateUTC` accepts month 13 and reads it as January of the next year (`BuildMap.MonthThirteen`). It reads years 0001..0099 as 1901..1999 (`BuildMap.TwoDigitYear`), because `Date.UTC` does both.
- `parseMoney` strips the decimal point of a JavaScript number, so the number `1234.5` is read as 12345 (`Money.ParseMoneyOfFractionalNumber`). Whole numbers keep their value (`Money.ParseMoneyOfWhole`).

## Model

| member | source | states |
|---|---|---|
| Pricing.EffectiveTerm | src/utils/proposalCalc.js:8 | definition: `term || 1` for a monthly service, 1 otherwise (properties in `AnnotateFields`) |
| Pricing.Subtotal | src/utils/proposalCalc.js:9-11 | definition: `unitValue * qty * term` (properties in `AnnotateFields`, `SubtotalNonNegative`) |
| Pricing.Annotate | src/utils/proposalCalc.js:7-13 | definition: the service spread with its effective term and subtotal (properties in `AnnotateFields`, `AnnotateIdempotent`) |
| Pricing.BuildItems | src/utils/proposalCalc.js:5-15 | definition: annotate every service, then sort by subtotal, largest first (properties in `BuildItemsSpec`) |
| Pricing.AnnotateAll | src/utils/proposalCalc.js:6-13 | one item per service, in input order, each the annotated service |
| Pricing.AnnotateFields | src/utils/proposalCalc.js:7-12 | an item keeps every field of its service except `term`; term is 1 for one-off services, the given term (or 1 when 0) for monthly ones; subtotal is unitValue·qty·term |
| Pricing.AnnotateIdempotent | src/utils/proposalCalc.js:7-12 | annotating an item's own service again yields the same item |
| Pricing.SubtotalNonNegative | src/utils/proposalCalc.js:9-11 | non-negative price, quantity and term give a non-negative subtotal |
| Pricing.Insert | src/utils/proposalCalc.js:14 | insertion adds exactly the one item to the multiset |
| Pricing.InsertNonIncreasing | src/utils/proposalCalc.js:14 | inserting into a non-increasing list keeps it non-increasing |
| Pricing.InsertStable | src/utils/proposalCalc.js:14 | among items of equal subtotal, insertion keeps the input order |
| Pricing.SortBySubtotal | src/utils/proposalCalc.js:14 | the stable sort: a permutation, non-increasing by subtotal, ties in input order |
| Pricing.BuildItemsSpec | src/utils/proposalCalc.js:5-15 | `buildItems` is a permutation of the annotated services, largest subtotal first, stable on ties |
| Pricing.BuildItemsHeadIsLargest | src/utils/proposalCalc.js:14 | the first item's subtotal is at least every service's subtotal |
| Grouping.GroupedBy | src/utils/proposalCalc.js:17-22 | reference definition: first-seen types as keys, each group the input filtered by its type (properties in `GroupingPartitions`) |
| Grouping.TypeTotalsOf | src/utils/proposalCalc.js:24-31 | reference definition: one sum per group, then `overall` as the sum of those (properties in `TypeTotalsPerType`, `TypeTotalsOverall`) |
| Grouping.GroupByType | src/utils/proposalCalc.js:17-22 | the accumulating `reduce` computes the grouping by type in first-seen key order |
| Grouping.OfTypeTypes | src/utils/proposalCalc.js:17-22 | a group holds only elements of its own type and is no longer than the input |
| Grouping.OfTypeAbsent | src/utils/proposalCalc.js:17-22 | a type is a key exactly when its group is non-empty |
| Grouping.FirstSeenTypesDistinct | src/utils/proposalCalc.js:17-22 | each type is listed once |
| Grouping.FirstSeenTypesMembers | src/utils/proposalCalc.js:17-22 | the keys are exactly the types of the input's elements |
| Grouping.GroupingWellFormed | src/utils/proposalCalc.js:17-22 | the grouping's key list is duplicate-free and matches its map |
| Grouping.GroupingPartitions | src/utils/proposalCalc.js:17-22 | every group is the input filtered by its type, in order, and non-empty; every element's type has a group |
| Grouping.GroupOfElement | src/utils/proposalCalc.js:17-22 | an element appears only in the group of its own type |
| Grouping.GroupSizesSum | src/utils/proposalCalc.js:17-22 | the group sizes add up to the input length, so every element lands in exactly one group |
| Grouping.SumOfGroupsTotal | src/utils/proposalCalc.js:24-31 | the group sums add up to the sum over the whole input |
| Grouping.SumOfKeys | src/utils/proposalCalc.js:24-31 | the sums of the first-seen types' groups add up to the whole input's sum |
| Grouping.TypeTotalsKeys | src/utils/proposalCalc.js:24-31 | the totals have one key per input type plus `overall` |
| Grouping.TypeTotalsOverall | src/utils/proposalCalc.js:29 | `overall` is the sum over the whole input |
| Grouping.TypeTotalsPerType | src/utils/proposalCalc.js:26-28 | each type's total is the sum over the elements of that type |
| Grouping.TypeTotalsEmpty | src/utils/proposalCalc.js:24-31 | an empty grouping gives `{ overall: 0 }` |
| Grouping.AccumulateTypeTotals | src/utils/proposalCalc.js:24-31 | the `forEach` plus the `overall` reduce compute the per-type totals and their sum |
| Grouping.SumEachGroup | src/utils/proposalCalc.js:26-28 | the `forEach` leaves one entry per group holding the group's sum |
| Grouping.SumOfGroupsNext | src/utils/proposalCalc.js:29 | the running `overall` sum gains the next group's total |
| Grouping.TotalsByType | src/utils/proposalCalc.js:26-28 | once every key is assigned, the totals are exactly the group sums |
| Grouping.SumByPermutation | src/utils/proposalCalc.js:27 | a sum does not depend on the order of its terms |
| Grouping.TypesOfPermutation | src/utils/proposalCalc.js:17-22 | a reordered input has the same set of types |
| Grouping.TypeTotalsPermutation | src/utils/proposalCalc.js:24-31 | reordering the input leaves every total unchanged |
| Grouping.TypeTotalsMap | src/utils/proposalCalc.js:24-31 | totals over two inputs related element-wise with equal types and weights are equal |
| Installments.Contribution | src/utils/proposalCalc.js:40-46 | definition: the plan of one type from its total, parsed entry and `parseInt` count (properties in `PlanOf`, `Apresentacao.ContributionOfWhole`) |
| Installments.Plans | src/utils/proposalCalc.js:39-48 | definition: the contributions of the grouping's keys, in key order (properties in `AccumulatePlans`, `ScheduleTotal`) |
| Installments.TotalFor | src/utils/proposalCalc.js:40 | definition: `totals[type] || 0` (properties in `PlanOf`, `Apresentacao.PackageTotal`) |
| Installments.EntryOf | src/utils/proposalCalc.js:41 | definition: `parseMoney` of the type's configured entry (properties in `Money.ParseMoneyNonNegative`, `Apresentacao.CondEntry`) |
| Installments.InstallmentsOf | src/utils/proposalCalc.js:42 | definition: `parseInt` of the configured count or 0, NaN read as 0 (properties in `Apresentacao.WholeInstallments`, `Apresentacao.FractionalInstallments`) |
| Installments.Saldo | src/utils/proposalCalc.js:43 | definition: the type's total less its entry (properties in `PlanOf`, `Apresentacao.EntryAboveTotal`) |
| Installments.PlanOf | src/utils/proposalCalc.js:44-46 | a package contributes exactly when its count and balance are positive, `count` installments of the balance divided and rounded to cents |
| Installments.Amounts | src/utils/proposalCalc.js:46 | the amount due at each installment 1..max count is the sum over the plans that reach it |
| Installments.AddInstallments | src/utils/proposalCalc.js:46 | the loop adds `val` to installments 1..parcelas, creating missing keys, and leaves all others |
| Installments.AddPackage | src/utils/proposalCalc.js:40-47 | one package's step keeps the map equal to the amounts due under the plans so far |
| Installments.AccumulatePlans | src/utils/proposalCalc.js:38-48 | after the `forEach`, the map holds exactly installments 1..max count with their amounts due |
| Installments.AmountAtBeyond | src/utils/proposalCalc.js:46 | nothing is due past the largest count |
| Installments.PlansStep | src/utils/proposalCalc.js:46 | a new plan raises every installment it reaches by its amount and can only raise the max count |
| Installments.SortedKeys | src/utils/proposalCalc.js:49 | the sorted numeric keys are strictly increasing and exactly the map's keys, i.e. 1..n |
| Installments.IncreasingCover | src/utils/proposalCalc.js:49 | a strictly increasing list of exactly the keys 1..count is [1, ..., count] |
| Installments.CompressRanges | src/utils/proposalCalc.js:51-60 | the grouping loop yields ranges from 1 to the last installment, contiguous, neighbouring amounts different, which expand back to the amounts |
| Installments.CloseRange | src/utils/proposalCalc.js:55-57 | closing the current run at the first change extends the compression |
| Installments.CalcParcelasAgrupadas | src/utils/proposalCalc.js:37-62 | the result is the compression of the summed per-installment amounts; empty when no package contributes |
| Installments.ExpandLength | src/utils/proposalCalc.js:51-61 | ranges expand to as many installments as the last `ate` |
| Installments.ExpandAt | src/utils/proposalCalc.js:51-61 | every installment inside a range is due the range's amount |
| Installments.RangeAmount | src/utils/proposalCalc.js:51-61 | a compression is read back range by range |
| Installments.RangesDecreasing | src/utils/proposalCalc.js:55 | on non-increasing amounts, the range amounts strictly decrease |
| Installments.ScheduleDecreasing | src/utils/proposalCalc.js:46-60 | the schedule's `valor` strictly decreases from range to range |
| Installments.ScheduleEmpty | src/utils/proposalCalc.js:50 | the schedule is empty exactly when no package contributes |
| Installments.ScheduleTotal | src/utils/proposalCalc.js:46-60 | Σ (ate−de+1)·valor equals Σ count·amount over the contributing packages |
| Installments.RangeRun | src/utils/proposalCalc.js:51-61 | each range lies within 1..n and covers a run of equal amounts |
| Installments.RangeEnd | src/utils/proposalCalc.js:55 | a range ends at the last installment or where the amount changes |
| Installments.CompressionUnique | src/utils/proposalCalc.js:51-61 | the amounts determine the ranges: the compression is unique |
| Money.ParseMoney | src/utils/proposalCalc.js:33-35 | definition: `parseFloat` of the text cleaned to digits and commas with the first comma made a point, or 0 (properties in `ParseMoneyNonNegative` and the examples below) |
| Money.ParseCurrency | src/components/StepServicos.jsx:50-53 | definition: the same cleaning of a string (properties in `ParseMoneyOfString`, `ParseCurrencyNonNegative`) |
| Money.RoundDiv | src/utils/proposalCalc.js:45 | the quotient rounded to the nearest cent, halves away from zero |
| Money.HalfUpQuotient | src/utils/proposalCalc.js:45 | non-negative quotient rounded to the nearest, halves up |
| Money.KeepDigitsAndCommas | src/utils/proposalCalc.js:34 | only digits and commas survive the cleaning |
| Money.FirstCommaToDot | src/utils/proposalCalc.js:34 | the replacement changes only commas into points, keeping the length |
| Money.KeepDigitsAndCommasIdempotent | src/utils/proposalCalc.js:34 | cleaning twice is cleaning once |
| Money.FirstCommaToDotAt | src/utils/proposalCalc.js:34 | only the first comma becomes a point |
| Money.ParseMoneyNonNegative | src/utils/proposalCalc.js:33-35 | `parseMoney` never returns a negative amount |
| Money.ParseCleanedNonNegative | src/utils/proposalCalc.js:34 | the cleaned text never parses to a negative amount |
| Money.ParseMoneyFalsy | src/utils/proposalCalc.js:34 | falsy input gives 0 |
| Money.ParseMoneyIgnoresOtherCharacters | src/utils/proposalCalc.js:34 | only the digits and commas of the text decide the amount |
| Money.ParseMoneyBrazilian | src/utils/proposalCalc.js:33-35 | "R$ 1.234,56" reads 1234.56 |
| Money.ParseMoneyDropsText | src/utils/proposalCalc.js:33-35 | "50% na assinatura" reads 50 |
| Money.ParseMoneyNoDigits | src/utils/proposalCalc.js:33-35 | text without digits such as "abc" reads 0 |
| Money.ParseMoneyOfDigits | src/utils/proposalCalc.js:33-35 | a plain digit string reads as that many whole units |
| Money.ParseMoneyOfWhole | src/utils/proposalCalc.js:34 | a positive whole JS number keeps its value |
| Money.ParseMoneyOfFractionalNumber | src/utils/proposalCalc.js:34 | the number 1234.5 loses its point and reads 12345 |
| Money.ParseCleanedDecimal | src/utils/proposalCalc.js:34 | text whose digits and commas spell `d,fd` reads the decimal d.fd |
| Money.ParseMoneyOfString | src/components/StepApresentacao.jsx:141-143 | on strings, the local `parseMoney` and `parseCurrency` agree |
| Money.ParseCurrencyNonNegative | src/components/StepServicos.jsx:50-53 | `parseCurrency` never returns a negative amount |
| Catalog.VisibleTypes | src/components/StepApresentacao.jsx:46-49 | a catalog type is kept exactly when its group is non-empty |
| Catalog.VisibleTypesAppend | src/components/StepApresentacao.jsx:46-73 | filtering splits over concatenation, so catalog order is kept |
| Catalog.VisibleIffPresent | src/components/StepPreview.jsx:69-71 | a type is visible exactly when some item has that type |
| Apresentacao.ParcelasOf | src/components/StepApresentacao.jsx:55 | definition: `+payCfg.installments || 0`, NaN and 0 both read as 0 (properties in `FractionalInstallments`, `NonNumericInstallments`, `CondOfWhole`) |
| Apresentacao.EntryValue | src/components/StepApresentacao.jsx:54 | definition: `parseMoney(payCfg.entry)` (properties in `CondEntry`, `Money.ParseMoneyNonNegative`) |
| Apresentacao.Conditions | src/components/StepApresentacao.jsx:54-69 | balance = total − entry; installment amount is 0 with no installments, else the balance divided and rounded to cents |
| Apresentacao.CondOf | src/components/StepApresentacao.jsx:52-70 | entry is non-negative; the method is the configured one or `'-'` |
| Apresentacao.PackageOf | src/components/StepApresentacao.jsx:47-72 | definition: the package of one catalog type: id, name, group, total and conditions (properties in `PackageAt`, `PackageTotal`) |
| Apresentacao.Packages | src/components/StepApresentacao.jsx:46-73 | definition: one package per catalog type, in catalog order, the empty groups dropped (properties in `PackagesLength`, `PackageAt`, `PackagesAreVisible`, `PackagesNonEmpty`) |
| Apresentacao.PackagesLength | src/components/StepApresentacao.jsx:46-73 | one package per visible catalog type |
| Apresentacao.PackageAt | src/components/StepApresentacao.jsx:46-73 | the i-th package is the i-th visible type's package |
| Apresentacao.PackagesAreVisible | src/components/StepApresentacao.jsx:46-73 | mapping and filtering out empty types is filtering then mapping |
| Apresentacao.PackagesNonEmpty | src/components/StepApresentacao.jsx:49 | every package has at least one item |
| Apresentacao.PackageTotal | src/components/StepApresentacao.jsx:51 | a package's total is the sum of its items' subtotals |
| Apresentacao.CondAgreesWithSchedule | src/components/StepApresentacao.jsx:54-57 | with a whole count and a positive balance, the package shows the entry, balance and installment amount the merged schedule uses |
| Apresentacao.CondOfWhole | src/components/StepApresentacao.jsx:55 | a whole count `n` shows `n` installments of the balance over `n` rounded to cents, beside the schedule's entry and balance |
| Apresentacao.CondEntry | src/components/StepApresentacao.jsx:54 | for any configuration, the entry shown is the parsed entry and the balance shown is the type total minus it |
| Apresentacao.CondParcela | src/components/StepApresentacao.jsx:57 | the installment amount is the balance over `n` rounded to cents |
| Apresentacao.ContributionOfWhole | src/utils/proposalCalc.js:41-46 | the schedule's plan for a type with whole count `n` and positive balance is `n` installments of the rounded quotient |
| Apresentacao.WholeInstallments | src/utils/proposalCalc.js:42 | `parseInt` of a whole count is that count |
| Apresentacao.NegativeBalance | src/components/StepApresentacao.jsx:56 | an entry above the total shows a negative balance, while the schedule leaves the type out |
| Apresentacao.EntryAboveTotal | src/components/StepApresentacao.jsx:54-56 | for any type, an entry above the total shows a negative balance while the schedule gets no plan from it |
| Apresentacao.PackageNegativeBalance | src/components/StepApresentacao.jsx:46-73 | a shown package whose entry exceeds its total carries a negative balance, and the schedule leaves its type out |
| Apresentacao.FractionalInstallments | src/components/StepApresentacao.jsx:55 | "3.5" stays 3.5 here while the schedule truncates it with `parseInt` |
| Apresentacao.NonNumericInstallments | src/components/StepApresentacao.jsx:55-57 | a count whose text does not start like a number reads 0 and gives installment amount 0 |
| Apresentacao.NonNumericExample | src/components/StepApresentacao.jsx:55 | "abc" reads 0 installments |
| Preview.PreviewData | src/components/StepPreview.jsx:20-48 | items are the services annotated in input order; the grouping and the totals are those of `groupByType`/`calcTypeTotals` |
| Preview.PreviewTotalsAgree | src/components/StepPreview.jsx:20-48 | the totals over the unsorted items equal those over `buildItems` |
| Preview.SectionShownIffSelected | src/components/StepPreview.jsx:69-71 | a section is shown exactly for the catalog types some service has |
| Preview.PaymentField | src/components/StepPreview.jsx:117-119 | a field shows its value when truthy, `'-'` otherwise |
| Preview.PaymentFieldMissing | src/components/StepPreview.jsx:117-119 | a type without conditions shows `'-'` |
| Condicoes.CondicoesWeightIsSubtotal | src/components/StepCondicoes.jsx:25-27 | the step's inline subtotal is the `buildItems` subtotal |
| Condicoes.CondicoesData | src/components/StepCondicoes.jsx:13-34 | the memos compute the grouping of the raw services and its totals |
| Condicoes.CondicoesTotalsAgree | src/components/StepCondicoes.jsx:22-33 | those totals equal the totals over `buildItems` |
| Condicoes.ConditionPatchEffect | src/components/StepCondicoes.jsx:36-45 | merged into the conditions, the patch sets one field of one type and keeps everything else |
| Condicoes.HandleChange | src/components/StepCondicoes.jsx:36-45 | the store's conditions become the merge with the patch; services, client, term and details unchanged |
| Condicoes.ConditionPatch | src/components/StepCondicoes.jsx:38-43 | definition: the one-type payload with the type's old fields and the new field (properties in `ConditionPatchEffect`) |
| Condicoes.InstallmentsInput | src/components/StepCondicoes.jsx:88 | the stored count is a number or NaN; 0 for a cleared field, the typed count for a run of digits |
| Condicoes.InstallmentsInputExamples | src/components/StepCondicoes.jsx:88 | a cleared field stores 0, a typed whole number itself |
| Servicos.NewService | src/components/StepServicos.jsx:33-41 | definition: the catalog service as added to the store, with qty 1, its default price and the current type (properties in `ServicosStep.ToggleSelect`, `ToggleOnShowsSelected`) |
| Servicos.ViewEntry | src/components/StepServicos.jsx:19-26 | selected exactly when some stored service has the id; then the first one's qty and price, else 0 and the catalog price |
| Servicos.ViewOf | src/components/StepServicos.jsx:18-29 | one entry per catalog service, in catalog order |
| Servicos.ViewOfEntries | src/components/StepServicos.jsx:18-29 | each entry is its catalog service merged with the store |
| Servicos.PrevType | src/components/StepServicos.jsx:55-58 | the index stays valid; it moves back unless on the first type, where `onBack` is called |
| Servicos.NextType | src/components/StepServicos.jsx:60-63 | the index stays valid; it moves on unless on the last type, where `onNext` is called |
| Servicos.NavigationRoundTrip | src/components/StepServicos.jsx:55-63 | next then prev (and prev then next) returns to the same type |
| Servicos.ServicosStep.constructor | src/components/StepServicos.jsx:14-16 | the step opens on the first type with an empty list |
| Servicos.ServicosStep.Refresh | src/components/StepServicos.jsx:18-29 | the effect replaces the list with the merged view of the current type |
| Servicos.ServicosStep.ToggleSelect | src/components/StepServicos.jsx:31-42 | a selected service is removed by id; an unselected one is appended with qty 1, default price, current type |
| Servicos.ServicosStep.ChangeQty | src/components/StepServicos.jsx:44 | the first service with the id gets the quantity |
| Servicos.ServicosStep.ChangeUnitValue | src/components/StepServicos.jsx:45-53 | the first service with the id gets the parsed price |
| Servicos.ServicosStep.HandlePrev | src/components/StepServicos.jsx:55-58 | the state change `PrevType` describes |
| Servicos.ServicosStep.HandleNext | src/components/StepServicos.jsx:60-63 | the state change `NextType` describes |
| Servicos.ToggleOnShowsSelected | src/components/StepServicos.jsx:31-42 | after checking, the list shows the service selected with qty 1 and the catalog price |
| Servicos.ToggleOffShowsUnselected | src/components/StepServicos.jsx:31-32 | after unchecking, the service shows unselected |
| Servicos.ToggleTwice | src/components/StepServicos.jsx:31-42 | checking then unchecking restores the stored services |
| Servicos.ChangeQtyShown | src/components/StepServicos.jsx:44 | a typed quantity is what the list shows next, beside the same price |
| Servicos.ChangeUnitValueShown | src/components/StepServicos.jsx:45 | a set price is what the list shows next, beside the same quantity |
| Cliente.Mask | src/components/StepCliente.jsx:20-29 | definition: the four-way mask on the digits by count (properties in `MaskRoundTrip`, `ApplyPhoneMaskLength`) |
| Cliente.ApplyPhoneMask | src/components/StepCliente.jsx:15-30 | definition: the mask of the input's digits (properties in `PhoneMaskRoundTrip`, `ApplyPhoneMaskIdempotent`) |
| Cliente.ProcessedValue | src/components/StepCliente.jsx:41-47 | definition: the phone is masked, other fields pass through (properties in `TypedPhoneSaved`) |
| Cliente.ClientData | src/components/StepCliente.jsx:39 | definition: the four empty defaults overridden by the data (properties in `SavedClient`) |
| Cliente.Digits | src/components/StepCliente.jsx:17 | the result holds only digits and is no longer than the input |
| Cliente.RemovePhoneMask | src/components/StepCliente.jsx:33-35 | the result holds only digits |
| Cliente.DigitsAppend | src/components/StepCliente.jsx:17 | digit extraction splits over concatenation |
| Cliente.DigitsOfDigits | src/components/StepCliente.jsx:17 | a digit string is its own digits |
| Cliente.MaskRoundTrip | src/components/StepCliente.jsx:20-29 | unmasking the mask of digits gives back their first 11 |
| Cliente.ShortMaskDigits | src/components/StepCliente.jsx:22-23 | the "(DD) rest" form holds exactly the typed digits |
| Cliente.FullMaskDigits | src/components/StepCliente.jsx:24-28 | the "(DD) DDDDD-rest" form holds exactly the typed digits |
| Cliente.PhoneMaskRoundTrip | src/components/StepCliente.jsx:15-35 | `removePhoneMask(applyPhoneMask(v))` is the first min(11, n) digits of `v` |
| Cliente.MaskIgnoresExtraDigits | src/components/StepCliente.jsx:26-28 | digits past the eleventh never show |
| Cliente.ApplyPhoneMaskIdempotent | src/components/StepCliente.jsx:15-30 | masking a masked value changes nothing |
| Cliente.ApplyPhoneMaskLength | src/components/StepCliente.jsx:15-30 | the masked text has 0, k+1, k+3 or k+4 characters for k digits, so it fits the field's 15-character limit |
| Cliente.PhoneMaskExample | src/components/StepCliente.jsx:24-25 | "11987654321" masks to "(11) 98765-4321" |
| Cliente.TypedPhoneSaved | src/components/StepCliente.jsx:45-58 | a typed phone reaches the store as its first 11 digits |
| Cliente.HandleNext | src/components/StepCliente.jsx:54-60 | the store's client gains every field of the client data, the phone as digits; nothing else changes |
| Cliente.WrittenStep | src/components/StepCliente.jsx:56-59 | writing one more field extends what was written |
| Cliente.WrittenAll | src/components/StepCliente.jsx:56-59 | once every entry is written, all fields are saved |
| Cliente.Saved | src/components/StepCliente.jsx:56-59 | definition: each field as saved, the phone without its mask (properties in `SavedClient`, `HandleNext`) |
| Cliente.SavedClient | src/components/StepCliente.jsx:39-60 | saved: the four defaults plus the data's fields, missing ones `''`, the phone as digits, the rest verbatim |
| ProposalStore.Merge | src/store/slices/proposalSlice.js:42 | definition: `{ ...service, ...changes }` on a service's fields (properties in `MergeProperties`, `UpdateFirst`) |
| ProposalStore.FirstIndex | src/store/slices/proposalSlice.js:40 | −1 exactly when no service has the id, else the first index with it |
| ProposalStore.UpdateFirst | src/store/slices/proposalSlice.js:38-44 | only the first service with the id is merged with the changes; all others unchanged |
| ProposalStore.RemoveId | src/store/slices/proposalSlice.js:46 | filtering never lengthens the list |
| ProposalStore.Proposal.constructor | src/store/slices/proposalSlice.js:4-20 | the initial state: empty client fields, no services, term 1, flat conditions, no details |
| ProposalStore.Proposal.SetClientField | src/store/slices/proposalSlice.js:27-30 | exactly one client field changes |
| ProposalStore.Proposal.SetClient | src/store/slices/proposalSlice.js:32-34 | the client record is replaced; nothing else changes |
| ProposalStore.Proposal.AddService | src/store/slices/proposalSlice.js:35-37 | the service is appended; existing entries and the rest of the state unchanged |
| ProposalStore.Proposal.UpdateService | src/store/slices/proposalSlice.js:38-44 | the services become `UpdateFirst` of the old ones |
| ProposalStore.Proposal.RemoveService | src/store/slices/proposalSlice.js:45-47 | the services become the old ones without that id |
| ProposalStore.Proposal.SetTerm | src/store/slices/proposalSlice.js:48-50 | only the term changes |
| ProposalStore.Proposal.SetPaymentConditions | src/store/slices/proposalSlice.js:51-53 | shallow merge: payload keys overwritten, other keys kept |
| ProposalStore.Proposal.SetDetails | src/store/slices/proposalSlice.js:54-56 | only the details change |
| ProposalStore.Proposal.ResetProposal | src/store/slices/proposalSlice.js:57-59 | the state is the initial state again |
| ProposalStore.MergeProperties | src/store/slices/proposalSlice.js:42 | merging is idempotent, empty changes change nothing, a given quantity wins and an absent one keeps the old |
| ProposalStore.UpdateAbsent | src/store/slices/proposalSlice.js:38-44 | updating a missing id is a no-op |
| ProposalStore.UpdateOnlyFirst | src/store/slices/proposalSlice.js:38-44 | later services with the same id are untouched |
| ProposalStore.UpdateKeepsFirstIndex | src/store/slices/proposalSlice.js:38-44 | changes that keep the id keep the updated service findable at the same index |
| ProposalStore.FirstIndexSameIds | src/store/slices/proposalSlice.js:40 | `findIndex` by id depends only on the ids |
| ProposalStore.RemoveIdAppend | src/store/slices/proposalSlice.js:46 | removal splits over concatenation, so survivors keep their order |
| ProposalStore.RemoveIdMembers | src/store/slices/proposalSlice.js:46 | survivors are exactly the services with another id |
| ProposalStore.RemoveIdLength | src/store/slices/proposalSlice.js:46 | the list shrinks by exactly the number of services with that id |
| ProposalStore.RemoveIdIdempotent | src/store/slices/proposalSlice.js:45-47 | removing twice is removing once |
| ProposalStore.RemoveIdAbsent | src/store/slices/proposalSlice.js:45-47 | removing a missing id is a no-op |
| ProposalStore.AddThenRemove | src/store/slices/proposalSlice.js:35-47 | adding a service and removing its id leaves the services with other ids |
| ProposalStore.SpreadKeepsFlatConditions | src/store/slices/proposalSlice.js:51-53 | a per-type entry merged beside the flat initial conditions keeps them |
| ContractForm.InitialForm | src/store/index.ts:13-48 | definition: the initial contract form (properties in `ContractStore.ResetForm`, `Validators.InitialFormErrors`) |
| ContractStore.ClampStep | src/store/index.ts:11 | the step lands in 0..3 and is unchanged inside it |
| ContractStore.ClampStepIdempotent | src/store/index.ts:11 | clamping twice is clamping once |
| ContractStore.UiState.constructor | src/store/index.ts:50 | the wizard opens on step 0 |
| ContractStore.UiState.GoToStep | src/store/index.ts:56-58 | the step becomes the clamped target |
| ContractStore.UiState.Next | src/store/index.ts:59-61 | one step forward, saturating at 3 |
| ContractStore.UiState.Prev | src/store/index.ts:62-64 | one step back, saturating at 0 |
| ContractStore.NextPrevRoundTrip | src/store/index.ts:59-64 | away from the ends, next then prev (and prev then next) returns to the step |
| ContractStore.PatchForm | src/store/index.ts:72-74 | payload keys take the payload's values, other keys keep theirs, no key is lost |
| ContractStore.PatchFormKeepsUndefined | src/store/index.ts:72-74 | a payload `undefined` is stored, not dropped |
| ContractStore.PatchFormIdempotent | src/store/index.ts:72-74 | the same patch twice is the patch once |
| ContractStore.PatchFormCompose | src/store/index.ts:72-74 | two patches are one patch with the later fields winning |
| ContractStore.ResetForm | src/store/index.ts:75-77 | the initial form of lines 13-48: a contract, no service chosen, no params |
| Placeholders.FormatDate | src/utils/mergePlaceholders.ts:5-11 | definition: `""` when falsy, `d/m/y` from three dash-separated parts, else the text as it is (properties in `FormatDateOfIso`, `FormatDateNoDash`) |
| Placeholders.Replacement | src/utils/mergePlaceholders.ts:33-44 | definition: the text for one key: `""` when missing, date or money formatting by prefix, else `String` (properties in `MissingValueIsEmpty`, `PlainKeyIsString`) |
| Placeholders.ReplaceAll | src/utils/mergePlaceholders.ts:31-44 | definition: one left-to-right pass of the global regex (properties in `ReplacePlaceholder`, `NoPlaceholderUnchanged`) |
| Placeholders.Interpolate | src/utils/mergePlaceholders.ts:28-45 | definition: `""` for an empty template, else `ReplaceAll` (properties in `NoBraceUnchanged`, `LowerCaseKeyUnchanged`) |
| Placeholders.InterpolateArray | src/utils/mergePlaceholders.ts:48-50 | definition: interpolate every line and drop the empty ones (properties in `InterpolateArraySingle`, `InterpolateArrayAppend`) |
| Placeholders.Split | src/utils/mergePlaceholders.ts:8 | at least one part, none containing the separator |
| Placeholders.FormatDateOfIso | src/utils/mergePlaceholders.ts:5-11 | "y-m-d" with non-empty parts becomes "d/m/y" |
| Placeholders.FormatDateNoDash | src/utils/mergePlaceholders.ts:9 | a string without `-` is returned as it is |
| Placeholders.SplitNone | src/utils/mergePlaceholders.ts:8 | a string without the separator is a single part |
| Placeholders.SplitAppend | src/utils/mergePlaceholders.ts:8 | the text before the first separator is the first part |
| Placeholders.MatchAt | src/utils/mergePlaceholders.ts:31 | a match has a non-empty key of `[A-Z0-9_]` and spans more than 4 characters |
| Placeholders.MatchKey | src/utils/mergePlaceholders.ts:31 | the rest of the pattern after `{{` has the same guarantees |
| Placeholders.PlaceholderMatches | src/utils/mergePlaceholders.ts:31 | `{{` spaces key spaces `}}` is recognised with exactly that key and length |
| Placeholders.ReplacePlaceholder | src/utils/mergePlaceholders.ts:31-44 | a placeholder is replaced by its value's text and the scan resumes after it, never rescanning the inserted text |
| Placeholders.NoPlaceholderUnchanged | src/utils/mergePlaceholders.ts:31 | text where no placeholder starts is unchanged |
| Placeholders.NoBraceUnchanged | src/utils/mergePlaceholders.ts:29-31 | text without `{` is unchanged |
| Placeholders.LowerCaseKeyUnchanged | src/utils/mergePlaceholders.ts:31 | a lower-case `{{nome}}` is left as it is |
| Placeholders.MissingValueIsEmpty | src/utils/mergePlaceholders.ts:35 | a missing or null value gives `""` |
| Placeholders.PlainKeyIsString | src/utils/mergePlaceholders.ts:43 | a key without `DATA_`/`VALOR_` shows `String(value)` |
| Placeholders.NonEmpty | src/utils/mergePlaceholders.ts:49 | `filter(Boolean)` keeps only non-empty lines and never lengthens |
| Placeholders.NonEmptyAllKept | src/utils/mergePlaceholders.ts:49 | with no empty line nothing is dropped |
| Placeholders.MapLines | src/utils/mergePlaceholders.ts:49 | `map` applies the function to each line, in order |
| Placeholders.InterpolateLines | src/utils/mergePlaceholders.ts:49 | each line is interpolated in place |
| Placeholders.InterpolateArrayAppend | src/utils/mergePlaceholders.ts:48-50 | the array version splits over concatenation, keeping order |
| Placeholders.InterpolateArraySingle | src/utils/mergePlaceholders.ts:48-50 | a line is dropped exactly when it interpolates to `""` |
| Placeholders.InterpolateArrayAllKept | src/utils/mergePlaceholders.ts:48-50 | with no line interpolating to `""`, nothing is dropped |
| Placeholders.InterpolateObject | src/utils/mergePlaceholders.ts:53-57 | the same keys, each value interpolated |
| BuildMap.ToBrlNoSymbol | src/pdf/buildMap.ts:30-45 | definition: `""` when nullish, already formatted text as it is, else the formatted number (properties in the `ToBrl` lemmas) |
| BuildMap.FormPart | src/pdf/buildMap.ts:72-95 | definition: the form's fields and the service title under their placeholder names (properties in `FormFieldsLose`, `TitleEntry`) |
| BuildMap.Defaults | src/pdf/buildMap.ts:54-62 | definition: the defaults object (properties in the `Default` lemmas, `VigenciaDias`) |
| BuildMap.DistratoPart | src/pdf/buildMap.ts:101-104 | definition: the distrato fields under their placeholder names (properties in `BuildMapKeys`) |
| BuildMap.BuildPlaceholderMap | src/pdf/buildMap.ts:70-108 | definition: the four parts spread in order, later parts winning (properties in `BuildMapKeys`, `ParamsWin`, `DefaultsWin`) |
| BuildMap.ValidIso | src/pdf/buildMap.ts:8-14 | definition: truthy, the exact `\d{4}-\d{2}-\d{2}` shape, and no zero year, month or day (properties in `ParseIsoDate`) |
| BuildMap.MakeDay | src/pdf/buildMap.ts:15 | definition: the day number of a date, months past December carrying into later years (properties in `MakeDayCarry`, `SameMonthDays`, `WholeYearDays`) |
| BuildMap.DateUtc | src/pdf/buildMap.ts:15 | definition: `Date.UTC(y, month, date)`, years 0..99 read as 1900..1999 (properties in `TwoDigitYear`, `MonthThirteen`) |
| BuildMap.ParseIsoDate | src/pdf/buildMap.ts:7-17 | a time value exactly for `\d{4}-\d{2}-\d{2}` with no zero year, month or day |
| BuildMap.DiffDaysInclusive | src/pdf/buildMap.ts:20-27 | 1 if either date is invalid, else max(1, day difference + 1) |
| BuildMap.SameDateIsOneDay | src/pdf/buildMap.ts:20-27 | the same date at both ends counts 1 |
| BuildMap.SameMonthDays | src/pdf/buildMap.ts:20-27 | within a month the count is the difference of days plus one, or 1 when the end comes first |
| BuildMap.WholeYearDays | src/pdf/buildMap.ts:20-27 | 1 January to 31 December counts the year's length |
| BuildMap.NewYearDays | src/pdf/buildMap.ts:20-27 | 31 December to the next 1 January counts 2 |
| BuildMap.MakeDayCarry | src/pdf/buildMap.ts:15 | a thirteenth month carries into January of the next year |
| BuildMap.MonthThirteen | src/pdf/buildMap.ts:9-16 | month 13 is accepted and equals January of the next year |
| BuildMap.TwoDigitYear | src/pdf/buildMap.ts:15 | years 1..99 stand for 1901..1999 |
| BuildMap.ToBrlNullish | src/pdf/buildMap.ts:31 | undefined and null give `""` |
| BuildMap.ToBrlAlreadyFormatted | src/pdf/buildMap.ts:34 | text ending in a separator and two digits, or holding `.`, is returned as it is |
| BuildMap.ToBrlNonNumeric | src/pdf/buildMap.ts:35-39 | text that does not read as a number is returned as it is |
| BuildMap.ToBrlOfDecimal | src/pdf/buildMap.ts:35-38 | digits with an optional decimal comma (not two decimals) are formatted by value |
| BuildMap.ToBrlOfNumberText | src/pdf/buildMap.ts:35-38 | unformatted text that reads as a number is formatted by that value |
| BuildMap.ToBrlBlank | src/pdf/buildMap.ts:35-38 | `""` is formatted as 0 |
| BuildMap.ServicoTitulo | src/pdf/buildMap.ts:48-51 | the title is truthy or `""`, and always truthy for a custom service |
| BuildMap.ServiceTitle | src/pdf/buildMap.ts:48-51 | unless overridden: the custom title, "Serviço Customizado", the template title, or `""`, in that precedence |
| BuildMap.TitleEntry | src/pdf/buildMap.ts:84 | the map's `SERVICO_TITULO` is the computed title unless overridden |
| BuildMap.DefaultPenalty | src/pdf/buildMap.ts:59 | the default penalty is 20 000 formatted |
| BuildMap.DefaultPaymentDays | src/pdf/buildMap.ts:56 | `PRAZO_PAGAMENTO_DIAS` is 10 unless overridden |
| BuildMap.DefaultForceMajeureDays | src/pdf/buildMap.ts:57 | `FORCA_MAIOR_DIAS` is 60 unless overridden |
| BuildMap.DefaultNoticeDays | src/pdf/buildMap.ts:60 | `AVISO_PREVIO_DIAS` is 1 unless overridden |
| BuildMap.DefaultFinePercent | src/pdf/buildMap.ts:61 | `MULTA_PERCENTUAL` is 10 unless overridden |
| BuildMap.DefaultMonths | src/pdf/buildMap.ts:58 | `NAO_CONCORRENCIA_MESES` is 6 unless overridden |
| BuildMap.VigenciaDias | src/pdf/buildMap.ts:55 | `VIGENCIA_DIAS` is the inclusive day count from start to end unless overridden |
| BuildMap.GivenParams | src/pdf/buildMap.ts:65 | definition: the fields of `form.params || {}` (properties in `Params`, `ParamsWin`) |
| BuildMap.Params | src/pdf/buildMap.ts:65-68 | the params copy keeps every key; only a given penalty amount is reformatted |
| BuildMap.PenaltyAmount | src/pdf/buildMap.ts:59-68 | the penalty is the formatted override when given, else 20 000 formatted |
| BuildMap.BuildMapKeys | src/pdf/buildMap.ts:70-108 | every key comes from the form part, the defaults, the distrato part or the params |
| BuildMap.ParamsWin | src/pdf/buildMap.ts:107 | `form.params` wins over everything |
| BuildMap.DefaultsWin | src/pdf/buildMap.ts:98 | a default holds unless a param overrides it |
| BuildMap.FormFieldsLose | src/pdf/buildMap.ts:72-95 | a form field holds unless a default or param has its name |
| Validators.PartesChecks | src/utils/validators.ts:5-12 | definition: the four blank checks with their messages, in order (properties in `PartesMessages`) |
| Validators.ParametrosChecks | src/utils/validators.ts:14-21 | definition: the four blank checks with their messages, in order (properties in `ParametrosMessages`) |
| Validators.ServicoChecks | src/utils/validators.ts:23-35 | definition: the checks of the contract or distrato branch (properties in `ServicoErrors`) |
| Validators.ValidatePartes | src/utils/validators.ts:5-12 | one message per blank field in fixed order; empty exactly when all four are filled |
| Validators.PartesMessages | src/utils/validators.ts:7-10 | a field's message is listed exactly when that field is blank |
| Validators.EmptyPartesErrors | src/utils/validators.ts:5-12 | blank fields give all four messages in order |
| Validators.ValidateParametros | src/utils/validators.ts:14-21 | the same rule for start date, total (via `toString`), city and state |
| Validators.ParametrosMessages | src/utils/validators.ts:16-19 | a field's message is listed exactly when that field is blank |
| Validators.EmptyParametrosErrors | src/utils/validators.ts:14-21 | blank start date and total give those two messages in order |
| Validators.ValidateServico | src/utils/validators.ts:23-35 | a distrato checks only its date; a contract gives at most 2 errors, one for a missing service, title and scope for a custom one |
| Validators.ServicoErrors | src/utils/validators.ts:25-33 | what each branch appends, in order |
| Validators.InitialServicoErrors | src/utils/validators.ts:25-26 | the initial form reports only the missing service |
| Validators.InitialFormErrors | src/utils/validators.ts:5-21 | the initial form reports the four provider fields and the start date and total |
| Validators.BlankTrims | src/utils/validators.ts:7 | `Blank` is exactly `!v?.trim()` |
| Validators.BlankTextTrims | src/utils/validators.ts:17 | `BlankText` is exactly `!v?.toString()?.trim()` |
| Validators.ErrorsEmpty | src/utils/validators.ts:6-11 | no errors exactly when no check fails |
| Validators.ErrorsMembers | src/utils/validators.ts:6-11 | a message is listed exactly when a check with it fails |
| Validators.Errors | src/utils/validators.ts:6-11 | definition: the messages of the failing checks, in order (properties in `ErrorsEmpty`, `ErrorsMembers`, `ErrorsAppend`) |
| Validators.ErrorsAppend | src/utils/validators.ts:6-11 | the error list of consecutive checks is the concatenation |
| Js.Spread | src/store/index.ts:73 | object spread: keys of both, the second's values winning |
| Js.NumberToStringRoundTrip | src/components/StepCondicoes.jsx:88 | `Number(String(x))` is `x` |
| Js.ParseIntOfWhole | src/utils/proposalCalc.js:42 | `parseInt(String(n))` is `n` for a whole number |
| Js.ParseFloatOfDecimal | src/utils/proposalCalc.js:34 | `parseFloat` reads an unsigned decimal literal as its value |
| Js.TrimEmpty | src/utils/validators.ts:7 | `trim()` is empty exactly when the text is all white space |
| Js.TrimUnchanged | src/utils/validators.ts:7 | text with no white space at either end is unchanged by `trim()` |
| Js.ToStr | src/utils/proposalCalc.js:34 | definition: `String(v)`, numbers without trailing zeros (properties in `NumberToStringRoundTrip`, `ParseIntOfWhole`) |
| Js.Trim | src/utils/validators.ts:7 | definition: `trim()`, white space dropped at both ends (properties in `TrimEmpty`, `TrimUnchanged`) |
| Js.ParseFloat | src/utils/proposalCalc.js:34 | definition: `parseFloat`: the longest decimal prefix after white space and a sign, or NaN (properties in `ParseFloatOfDecimal`) |
| Js.ParseInt | src/utils/proposalCalc.js:42 | definition: `parseInt(s, 10)`: the leading digits after white space and a sign, or NaN (properties in `ParseIntOfWhole`) |
| Js.StringToNumber | src/components/StepApresentacao.jsx:55 | definition: `Number(s)`: the whole trimmed text must be a decimal literal, blank is 0 (properties in `StringToNumberOfText`, `NumberToStringRoundTrip`) |
| Js.StringToNumberOfText | src/components/StepApresentacao.jsx:55 | `Number` of blank text is 0, and of a run of digits is their value |
| Js.ToNumber | src/components/StepApresentacao.jsx:55 | `Number(v)` is a number or NaN, and a number is its own `Number` |

## Left out

- PDF generation, rendering, templates fetched at run time, blob URLs, html2pdf, Web Share and React rendering are I/O. They are not modelled.
- Persistence through redux-persist and localStorage (src/store/index.ts:90-104) is I/O. It is not modelled.
- `crypto.randomUUID`, `new Date()` and react-imask masked inputs are not part of this model.
- Locale currency formatting (`toLocaleString`, `Intl.NumberFormat`) is a foreign call. It appears as the parameters `formatMoney` and `formatBrl`, so what these produce is not modelled.
- Floating point is not modelled. Numbers are exact hundredths, and sums of cents are exact, where JavaScript accumulates binary rounding errors.
- `parseFloat` and `Number` round sub-cent digits half up when they read text. Exponent, hexadecimal and `Infinity` notation are not modelled.
- A count below 1 in `payment[type].installments` gives no plan, as in the source's loop. Non-integer or NaN quantities and prices in a service are not modelled; a service's fields are integers.
- `Object.entries` order is a parameter where the code iterates over it (`Cliente.HandleNext`, `Placeholders.InterpolateObject`); their contracts show the result does not depend on it. The grouping's keys are in first-seen order; JavaScript would list integer-like keys first.
- `Installments.SortedKeys` scans keys 1, 2, … rather than sorting strings numerically. The accumulated map's keys are always exactly 1..max count, and that is proved.
- An object spread of a string value (`{ ...'abc' }`) is modelled as `{}`; the code only spreads objects, `undefined` or `null`.
- Validators.ValidatePartes: assumes the checked fields are absent, null or strings, since the source's `.trim()` would throw on other values.
- Validators.ValidateParametros: assumes the same of `dataInicio`, `foroCidade` and `foroUf`; `valorTotal` goes through `toString` and may be any value.
- Validators.ValidateServico: assumes the same of the custom title, scope and distrato date.
- `clampStep` on NaN or a non-integer is not modelled; steps are integers.
- `Date.UTC` returns NaN outside ±8.64e15 ms. The time-value range limit is not modelled, because four-digit years stay far inside it.
- `formatDate` is modelled with JavaScript's `split`, which keeps empty parts. Values that are not strings give `""`.
- Grouping.GroupByType: type ids are assumed not to name `Object.prototype` members (`constructor`, `toString`, `__proto__`), on which the source's `acc[item.type] ||= []` reaches the inherited member and `push` throws.
