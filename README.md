# Metier wallet facade: a Dafny model

Metier is a Qt desktop wallet. Its own logic is small and sits in two places:

- the facade `OTWrap::Imp`, which stands between the dialogs and the opentxs wallet library;
- the list model `model::SeedType`.

This project models that logic and proves what it promises. Every library call becomes an argument of the operation that makes it:

- the rows of the blockchain-selection model;
- what `AccountList`, `NewHDSubaccount`, `NewSeed`, `ImportSeed`, `Words` and `Wallet().Nym` return;
- the application's configuration section, as a map from key to value;
- whether `Set_str` and `Save` succeed.

Modules:

- `Common`: `Option`, the byte range check and `static_cast<std::uint8_t>` (`Byte`, `x % 256`).
- `Ordering`: the order `std::sort` uses on `std::pair<std::string, int>`.
- `PairTransform`: `Imp::transform`, which swaps each (code, name) pair and sorts the result.
- `SeedTypeModel`: `model::SeedType`, with its `max_` fold, `data` and `rowCount`.
- `Chains`: `Imp::EnabledChains`, a class over a `set` of 32-bit chain types.
- `Rows`: the cursor walks of `scanBlockchains` and `validateBlockchains`. Each walk is a read-only loop proved against functions of the visited rows.
- `Words`: `QString::split(' ', Qt::SkipEmptyParts)`, which turns a recovery phrase into a word list.
- `OTWrap`: the class `Imp`. Its fields are the seed id, the nym id, the enabled-chain object, the seed-type model and the four get-or-create caches. The create, import and validate operations are its methods, and so are the cache lookups.

While the library cursor walks, it reads an invalid row once it moves past the end of the supplied rows. The scope guard on `seed_id_` and `nym_id_` appears as a `success` flag, checked as each method's last step. `SeedType::max_` is named like a maximum, but the code adds up the names' lengths in UTF-8 bytes (`std::string::size()`). The model follows the code and proves that this sum is at least as large as every name's length.

## Model

| member | source | states |
|---|---|---|
| `PairTransform.Transform` | src/otwrap/imp.hpp:117-129 | the result is sorted ascending and holds exactly one (name, code) pair for each (code, name) entry of the input |
| `PairTransform.SortSorted` | src/otwrap/imp.hpp:126 | sorting yields an ascending arrangement of the same pairs |
| `PairTransform.SortedPermutationUnique` | src/otwrap/imp.hpp:126 | two ascending arrangements of the same pairs are equal, so `std::sort` (which is not stable) has exactly one possible result |
| `PairTransform.TransformIsTheSortedPermutation` | src/otwrap/imp.hpp:117-129 | any ascending arrangement of the swapped pairs is the transform's result |
| `PairTransform.TransformMembers` | src/otwrap/imp.hpp:121-125 | a pair is in the result iff it is the swap of some input entry |
| `Ordering.PairLeTransitive` | src/otwrap/imp.hpp:126 | the pair order (string lexicographic, then integer) is transitive |
| `Common.Byte` | src/otwrap/imp.hpp:490-493 | narrowing to `uint8_t` gives 0..255, agrees with the input modulo 256, and leaves values in range unchanged |
| `Chains.AsInt` | src/otwrap/imp.hpp:81 | `static_cast<int>` of a 32-bit chain type fits an `int` and keeps types below 2^31 unchanged |
| `Chains.EnabledChains.Get` | src/otwrap/imp.hpp:71-84 | returns each member of the set once, as an `int`, in the set's ascending order, and nothing else |
| `Chains.EnabledChains.Set` | src/otwrap/imp.hpp:86-90 | the stored set becomes exactly the argument |
| `Rows.VisitedShape` | src/otwrap/imp.hpp:139-154 | the visited rows are a prefix of valid rows; no visited row but the final one is marked last; the walk stops at the end, before an invalid row, or after a last row |
| `Rows.EnabledCountSpec` | src/otwrap/imp.hpp:144-147 | the enabled count is at most the number of rows, and is zero iff no row is enabled |
| `Rows.LongestNameSpec` | src/otwrap/imp.hpp:149 | the longest UTF-8 byte length bounds every name's byte length and is some name's, or 0 |
| `Common.Utf8LengthBounds` | src/otwrap/imp.hpp:149 | a name's `size()` in UTF-8 bytes is between one and four bytes per character, and equals the character count exactly when the name is ASCII |
| `Rows.EnabledTypesSpec` | src/otwrap/imp.hpp:144-147 | a chain type is in the set iff some enabled row carries it |
| `Rows.EnabledTypesAtMostCount` | src/otwrap/imp.hpp:144-147 | the set of enabled types is never larger than the enabled count |
| `Rows.ScanRows` | src/otwrap/imp.hpp:133-155 | over exactly the visited rows, returns the enabled count, the longest name length in UTF-8 bytes and the set of enabled chain types |
| `Rows.AccountTotalFails` | src/otwrap/imp.hpp:170-190 | the account pass fails iff some visited enabled row had no accounts and got an empty new subaccount id |
| `Rows.AccountTotalPositive` | src/otwrap/imp.hpp:173-200 | after a successful pass the total is at least the enabled count, and is zero when no row is enabled |
| `Rows.WalkAccounts` | src/otwrap/imp.hpp:160-197 | reports failure iff the pass fails; otherwise returns the pass's total and the enabled types of the visited rows |
| `Words.SplitWordsAreWords` | src/otwrap/imp.hpp:396-398 | every part of the split phrase is non-empty and has no space |
| `Words.SplitJoinRoundTrip` | src/otwrap/imp.hpp:396-398 | splitting words joined with single spaces gives the words back |
| `SeedTypeModel.MaxBoundsEveryName` | src/models/seedtype.cpp:18-24 | `max_` is the sum of the names' UTF-8 byte lengths: at least every single name's byte length, and strictly more once another name is non-empty |
| `SeedTypeModel.Data` | src/models/seedtype.cpp:29-53 | non-empty iff the index is valid, the row is in range and the role is display or user; display gives the row's name, user gives its code |
| `SeedTypeModel.RowCountBoundsData` | src/models/seedtype.cpp:55-58 | `rowCount` is the number of rows, and the rows below it are exactly those with data |
| `OTWrap.Resolve` | src/otwrap/imp.hpp:247-291 | keeps a held id; else adopts the configured one; else adopts the single candidate iff storing and saving succeed; otherwise fails with an empty id |
| `OTWrap.ResolveAdoptsOneSource` | src/otwrap/imp.hpp:247-291 | a successful resolution without a held id writes exactly one source: the configured value when there is one, otherwise the single candidate |
| `OTWrap.ResolveSettles` | src/otwrap/imp.hpp:206 | once an id is held, resolving again keeps it whatever the library reports |
| `OTWrap.Imp.constructor` | src/otwrap/imp.hpp:514-550 | no seed, no nym, no enabled chain and empty caches; the seed-type model lists the transformed seed types |
| `OTWrap.Imp.EntriesDistinct` | src/otwrap/imp.hpp:106-115 | while the invariant holds, distinct keys never share a cached model |
| `OTWrap.Imp.ScanBlockchains` | src/otwrap/imp.hpp:133-159 | returns the visited rows' enabled count and longest name in UTF-8 bytes, and swaps in their enabled types |
| `OTWrap.Imp.ValidateBlockchains` | src/otwrap/imp.hpp:160-201 | succeeds iff no visited enabled chain failed to get an account and some visited row is enabled; an empty new subaccount id returns false at once and leaves the chain set unchanged; otherwise the visited enabled types are swapped in, even when none is enabled and the result is false |
| `OTWrap.Imp.ValidateNym` | src/otwrap/imp.hpp:202-246 | the result and the new nym id are the resolution of the old id, the `nymid` configuration value and the local nyms |
| `OTWrap.Imp.ValidateSeed` | src/otwrap/imp.hpp:247-291 | the result and the new seed id are the resolution of the old id, the `seedid` configuration value and the stored seeds |
| `OTWrap.Imp.AccountActivityModel` | src/otwrap/imp.hpp:293-317 | a cached account returns its model and changes nothing; a new account gets a fresh model bound to the current nym, and no other entry changes |
| `OTWrap.Imp.CreateNymAsWritten` | src/otwrap/imp.hpp:318-349 | as written, the nym id is empty after every call |
| `OTWrap.Imp.CreateNym` | src/otwrap/imp.hpp:318-349 | the nym id is the new nym's iff it was made, stored and saved; otherwise it is released |
| `OTWrap.Imp.CreateNewSeed` | src/otwrap/imp.hpp:350-399 | the seed id is the new seed's and the words are returned iff the inputs fit a byte, the id is non-empty, and storing and saving succeed; otherwise the id is empty and the list is empty |
| `OTWrap.Imp.ImportSeed` | src/otwrap/imp.hpp:400-438 | the seed id is the imported one (style and language narrowed to a byte) iff it is non-empty and storing and saving succeed; otherwise it is empty |
| `OTWrap.Imp.SeedLanguageModel` | src/otwrap/imp.hpp:439-463 | a cached style returns its model; an out-of-range style gives null and caches nothing; otherwise a fresh model of the transformed languages is cached under that style only |
| `OTWrap.Imp.SeedSizeModel` | src/otwrap/imp.hpp:464-487 | the same get-or-create rules over the transformed strengths |
| `OTWrap.Imp.SeedWordValidator` | src/otwrap/imp.hpp:488-503 | returns the validator cached under the narrowed (style, language), creating and caching a fresh one only when none is there |
| `OTWrap.SameAccountSameModel` | src/otwrap/imp.hpp:299-302 | two requests for one account return the identical model |
| `OTWrap.ValidatorKeysWrap` | src/otwrap/imp.hpp:490-495 | a style and a language that agree modulo 256 share one validator |
| `OTWrap.NymLostOnSuccess` | src/otwrap/imp.hpp:321-348 | after a successful seed creation and a nym creation in which every step succeeds, the nym id as written is empty |
| `OTWrap.NymKeptOnSuccess` | src/otwrap/imp.hpp:321-348 | with the guard disarmed, the same sequence keeps the new nym's id |

## Findings

| source | as written | input that shows it | evidently intended | confidence | as-written member | corrected member |
|---|---|---|---|---|---|---|
| src/otwrap/imp.hpp:321-348 | `createNym` never sets `success = true`, so the scope guard calls `Release()` on the nym id even after `Assign`. | A seed id is held, `Wallet().Nym` returns a nym, and `Set_str` and `Save` both succeed. The nym id ends empty. | The nym id equals the new nym's id when every step succeeds, as `createNewSeed` and `importSeed` arrange by setting `success`. | high; not executed | `OTWrap.Imp.CreateNymAsWritten`, `OTWrap.NymLostOnSuccess` | `OTWrap.Imp.CreateNym`, `OTWrap.NymKeptOnSuccess` |

## Left out

- Mutexes (`ot::Lock`) and `moveToThread`: they exist for concurrency. Each operation is modelled as one atomic step.
- The opentxs API (`Seeds()`, `Wallet()`, `Blockchain()`, `Config()`, `Storage()`, `UI()`, `Factory()`): these are foreign calls. Their results are arguments, and their own state is not modelled. That includes the configuration value that `Set_str` writes even when `Save` then fails.
- `make_args`: it is file-system and application-data-directory set-up ending in `qFatal`.
- The `longest_seed_word_` initializer and `wordCount`: both only delegate to the library.
- `needNym` and `needSeed`: `needNym` compares the library's local nym count with 0, and `needSeed` tests whether the library's seed list is empty; each is one library query.
- The `OT_ASSERT(seeds.DefaultSeed().empty())` checks in `createNewSeed` and `importSeed` are about library state and are not modelled. The `OT_ASSERT`s on the facade's own seed id are `requires` clauses.
- The blockchain-chooser models, the selector callback and the UI widgets (main window, chooser, new-seed dialog, account list): these are UI wiring.
- Password prompts, `SecretFromText` and the empty passphrase: these are inputs to the library alone.
- Identifier parsing: nym and seed identifiers are strings. `SetString` on a nym identifier is taken to keep the string it is given.
- `Rows.Row`: the chain type is a 32-bit unsigned value, the underlying type of `ot::blockchain::Type`. The enumeration's header is not part of this model.
- Names are sequences of Unicode characters. Their `std::string` byte length is computed as their UTF-8 encoding length (`Common.Utf8Length`), on the understanding that the library stores names as UTF-8.
- Integer widths: `int` arguments, counts and the `max_` sum are unbounded here. The source's 32-bit `int` could overflow on absurd inputs, and that overflow is not modelled. Seed-type and strength codes are taken to fit an `int`.
- `SeedTypeModel.Data`: a row is read as in range exactly when `0 <= row < size`. This is what the unsigned cast and `at()` amount to.
- `OTWrap.Imp.SeedLanguageModel` and `OTWrap.Imp.SeedSizeModel`: the rows of the new model come from the library listing passed in for that style. The list model classes `model::SeedLanguage` and `model::SeedSize` are not part of this model beyond their rows.
