# secure_draw: counter and participant-draw programs, and the draw page's input handling

This project models, in Dafny, the executable core of the secure_draw repository:

- **The counter program** (`anchor/programs/securedraw/src/lib.rs`). It is an Anchor program for a Solana-style ledger. One account holds a `count: u8`. Its instructions are `initialize`, `increment`, `decrement`, `set(value)` and `close`. `anchor/programs/tmpdraw/src/lib.rs` is the same program with every `Securedraw` renamed `Tmpdraw`, so module `CounterProgram` models both files. Rows below cite whichever copy; the same lines of the other copy say the same.
- **The participant draw program** (`anchor/programs/securedraw/src/prelib.rs`, module `DrawProgram`). Its account holds `count: u8` and a participant list `nuser` of at most 10 keys. `set` replaces the list. `increment` stores `hash byte % list length`, the index of the drawn participant. `decrement` and `close` work as in the counter program.
- **The draw page's handlers** (`src/components/securedraw/securedraw-ui.tsx`, module `SecuredrawUi`). "Set participants" splits the text area on line breaks, trims each line, drops empty lines, and sends the keys only if there is at least one and all are valid. "Random draw!" sends nothing for a cancelled, empty or non-numeric answer, or for one equal to the count on display.
- **Program id per cluster** (`anchor/src/securedraw-exports.ts`, `anchor/src/tmpdraw-exports.ts`, module `ProgramIds`). The two functions are the same switch over different IDL addresses, so one function `ProgramId` models both.

How the ledger is modelled (module `Runtime`, `CounterProgram`, `DrawProgram`):

- The ledger is a class holding `accounts: map<Pubkey, Account>`. Each instruction is a method that updates it in place.
- Each method is proved equal to a pure function `Execute(accounts, instruction)`. That function returns the new accounts, or the reason the instruction aborted.
- `Transact` applies the rule that a transaction is atomic: an aborted instruction leaves the ledger as it was. The lemmas are stated over `Execute`, `Transact` and `Run` (a series of transactions).
- Panics are modelled as aborts with a reason. These are `checked_add(1).unwrap()` and `checked_sub(1).unwrap()` on overflow, and `% 0` when the list is empty. The source's callers may send any of these, so they are not preconditions.
- Anchor's account checks are modelled as aborts too:
  - `init` on an address in use fails.
  - An instruction on an address with no account fails.
  - In `prelib.rs`, the account data must fit the space that `initialize` allocated (`8 + Securedraw::INIT_SPACE` = 8 + 1 + 4 + 10·32 bytes). Anchor writes the account back into that space when the instruction ends. So `set` with more than 10 keys aborts, and `max_len(10)` is an invariant of every account (`RunKeepsWithinMaxLen`, `DrawLedger.Valid`).
- `nuser.len() as u8` keeps the low eight bits, and the model writes this out. Under the 10-key bound it never truncates.

Inputs the model takes as parameters:

- The first byte of the SHA-256 hash of the clock's timestamp is `entropy: u8`.
- Decoding a `PublicKey` from text is `decode: string -> Option<Pubkey>`; `None` means the constructor throws.
- JavaScript's `parseInt` is `parseInt: string -> Option<int>`; `None` means NaN.
- The IDL addresses behind `SECUREDRAW_PROGRAM_ID` and `TMPDRAW_PROGRAM_ID` are parameters, because the IDL JSON files are not part of this model.

Three things the code does that differ from what its names suggest:

- The page's data-access layer sends `increment()` without arguments (`securedraw-data-access.tsx:81`), so the number typed at the "Random draw!" prompt never reaches the ledger. `prelib.rs` also ignores its `nuser: u8` argument (`DrawIgnoresRequested`). The model follows the Rust.
- Both export files map devnet and testnet to the same literal id. So the two programs resolve to one id there (`ProgramsShareDevnetId`).
- The page hands the parsed keys to `setMutation`, whose `mutationFn` is `(value: number) => program.methods.set(value)` (`securedraw-data-access.tsx:88-90`). That is the shape of `lib.rs`'s `set(value: u8)`, not of `prelib.rs`'s `set(nuser: Vec<Pubkey>)`. The generated types in `anchor/target/types/secure_draw.ts` do show `set` taking `nuser: vec<pubkey>`. `SubmittedListOnLedger` assumes the page is wired to `prelib.rs`'s `set` in that shape.

The generated types in `anchor/target/types/secure_draw.ts` also name the instructions `generateRandomness`, `getRandomness` and `init`. No logic for them is present in these sources, so the model covers only the programs above.

## Model

| member | source | states |
|---|---|---|
| CounterProgram.Execute | anchor/programs/securedraw/src/lib.rs:11-31 | a committed instruction changes no account other than the one it names |
| CounterProgram.CounterLedger.Initialize | anchor/programs/securedraw/src/lib.rs:25-45 | the ledger after `initialize` and its status are those of one atomic transaction of `Execute` |
| CounterProgram.CounterLedger.Increment | anchor/programs/securedraw/src/lib.rs:20-22 | the in-place update of `count` is the transaction `Execute` describes, and an abort leaves the ledger unchanged |
| CounterProgram.CounterLedger.Decrement | anchor/programs/securedraw/src/lib.rs:15-17 | the in-place update of `count` is the transaction `Execute` describes, and an abort leaves the ledger unchanged |
| CounterProgram.CounterLedger.Set | anchor/programs/securedraw/src/lib.rs:29-31 | the in-place update of `count` is the transaction `Execute` describes |
| CounterProgram.CounterLedger.Close | anchor/programs/securedraw/src/lib.rs:11-13 | removing the account is the transaction `Execute` describes |
| CounterProgram.ReplayTestSuite | anchor/tests/securedraw.spec.ts:16-74 | on a fresh address, initialize, increment, increment, decrement, set 42 and close all commit, and fetching shows 0, 1, 2, 1, 42, then no account |
| CounterProgram.InitializeStartsAtZero | anchor/programs/tmpdraw/src/lib.rs:25-45 | `initialize` on a free address creates a counter at 0 and nothing else; on an address in use it aborts and the ledger is unchanged |
| CounterProgram.IncrementAddsOne | anchor/programs/tmpdraw/src/lib.rs:20-22 | below 255 `increment` sets count to count + 1; at 255 it aborts and the ledger is unchanged |
| CounterProgram.DecrementSubtractsOne | anchor/programs/tmpdraw/src/lib.rs:15-17 | above 0 `decrement` sets count to count − 1; at 0 it aborts and the ledger is unchanged |
| CounterProgram.SetOverwrites | anchor/programs/tmpdraw/src/lib.rs:29-31 | `set(v)` makes count exactly `v` whatever it was, and two `set(v)` transactions leave the same ledger and status as one |
| CounterProgram.CloseRemoves | anchor/programs/tmpdraw/src/lib.rs:53-57 | `close` removes the account, and after it every instruction on that address except `initialize` aborts as uninitialized |
| CounterProgram.IncrementThenDecrementRestores | anchor/programs/securedraw/src/lib.rs:15-22 | below 255, an `increment` then a `decrement` give back the original ledger |
| CounterProgram.RunLeavesOthersAlone | anchor/programs/securedraw/src/lib.rs:60-64 | any series of transactions leaves an account that none of them names exactly as it was, present or absent |
| DrawProgram.Execute | anchor/programs/securedraw/src/prelib.rs:13-56 | a committed instruction changes only the account it names, and a committed `increment` leaves a count that is an index into the participant list |
| DrawProgram.DrawLedger.Initialize | anchor/programs/securedraw/src/prelib.rs:45-47 | the new ledger is the transaction `Execute` describes, and every account still fits its space |
| DrawProgram.DrawLedger.Set | anchor/programs/securedraw/src/prelib.rs:49-56 | replacing `nuser` in place is the transaction `Execute` describes, aborting when it does not fit, and every account still fits its space |
| DrawProgram.DrawLedger.Increment | anchor/programs/securedraw/src/prelib.rs:22-27 | storing `entropy % (len as u8)` in place is the transaction `Execute` describes, aborting on a zero divisor, and every account still fits |
| DrawProgram.DrawLedger.Decrement | anchor/programs/securedraw/src/prelib.rs:17-20 | the in-place checked decrement is the transaction `Execute` describes, and every account still fits |
| DrawProgram.DrawLedger.Close | anchor/programs/securedraw/src/prelib.rs:13-15 | removing the account is the transaction `Execute` describes |
| DrawProgram.DrawOnce | anchor/programs/securedraw/src/prelib.rs:22-56 | initialize, set and increment on a fresh address commit exactly when the list has 1 to 10 keys, and the drawn index then names one of the given participants |
| DrawProgram.FitsIffWithinMaxLen | anchor/programs/securedraw/src/prelib.rs:98-104 | an account's data fits `8 + INIT_SPACE` bytes exactly when its list has at most `max_len` = 10 keys |
| DrawProgram.SetStoresList | anchor/programs/securedraw/src/prelib.rs:49-50 | `set` with at most 10 keys stores exactly that list, in order, and keeps count; with more it aborts and the ledger is unchanged |
| DrawProgram.DrawPicksParticipant | anchor/programs/securedraw/src/prelib.rs:22-25 | with a non-empty list, `increment` stores `entropy mod length`, which is below the length, and keeps the list |
| DrawProgram.DrawOnEmptyListAborts | anchor/programs/securedraw/src/prelib.rs:24 | with an empty list, `increment` aborts on the remainder by zero and the ledger is unchanged |
| DrawProgram.DrawIgnoresRequested | anchor/programs/securedraw/src/prelib.rs:22-25 | the `nuser: u8` argument of `increment` has no effect on its result |
| DrawProgram.DecrementSubtractsOne | anchor/programs/securedraw/src/prelib.rs:17-18 | above 0 `decrement` subtracts one and keeps the list; at 0 it aborts and the ledger is unchanged |
| DrawProgram.InitializeAndClose | anchor/programs/securedraw/src/prelib.rs:60-82 | `initialize` creates count 0 with no participants; `close` removes the account; `close` of a missing account aborts |
| DrawProgram.TransactKeepsFit | anchor/programs/securedraw/src/prelib.rs:65-70 | every transaction, committed or not, keeps every account within the space allocated for it |
| DrawProgram.RunKeepsWithinMaxLen | anchor/programs/securedraw/src/prelib.rs:102-103 | from a ledger whose accounts fit, no series of transactions makes a participant list longer than 10 |
| SecuredrawUi.Split | src/components/securedraw/securedraw-ui.tsx:68 | `split('\n')` yields at least one piece, and no piece holds a line break |
| SecuredrawUi.JoinSplit | src/components/securedraw/securedraw-ui.tsx:68 | joining the pieces of `split` with the separator gives back the text |
| SecuredrawUi.SplitJoin | src/components/securedraw/securedraw-ui.tsx:68 | splitting joined pieces that hold no separator gives back the pieces |
| SecuredrawUi.TrimStart | src/components/securedraw/securedraw-ui.tsx:69 | the result is a suffix of the text, everything dropped is whitespace, and it does not start with whitespace |
| SecuredrawUi.TrimEnd | src/components/securedraw/securedraw-ui.tsx:69 | the result is a prefix of the text, everything dropped is whitespace, and it does not end with whitespace |
| SecuredrawUi.Trim | src/components/securedraw/securedraw-ui.tsx:69 | `trim()` gives the text with a blank part cut from each end, neither starting nor ending with whitespace, and empty exactly when the text is blank |
| SecuredrawUi.TrimTrimmed | src/components/securedraw/securedraw-ui.tsx:69 | trimming a string that neither starts nor ends with whitespace returns it unchanged |
| SecuredrawUi.DropEmpty | src/components/securedraw/securedraw-ui.tsx:70 | every value in the result is a non-empty value of the input, every non-empty value of the input is in the result, and the result is no longer than the input |
| SecuredrawUi.DropEmptyKeepsOrder | src/components/securedraw/securedraw-ui.tsx:70 | the filter keeps every non-empty entry, each occurrence once, in input order: its k-th entry is the input's k-th non-empty entry |
| SecuredrawUi.ParseKeys | src/components/securedraw/securedraw-ui.tsx:67-70 | every parsed key is non-empty and trimmed, and there are at most as many keys as lines |
| SecuredrawUi.ParseKeysFollowLines | src/components/securedraw/securedraw-ui.tsx:67-70 | the k-th key is the k-th non-blank line, trimmed: one key per non-blank line, in input order |
| SecuredrawUi.NoKeysIffBlank | src/components/securedraw/securedraw-ui.tsx:72-75 | the text yields no key exactly when it is empty or whitespace and line breaks only |
| SecuredrawUi.DecodeAll | src/components/securedraw/securedraw-ui.tsx:78 | decoding succeeds exactly when every key decodes, and then yields one key per input, in order |
| SecuredrawUi.HandleSetParticipants | src/components/securedraw/securedraw-ui.tsx:66-83 | a blank text raises the "at least one" alert; otherwise one invalid key raises the "invalid" alert and nothing is sent; otherwise the decoded keys are sent, one per parsed key, in order |
| SecuredrawUi.SubmittedListOnLedger | src/components/securedraw/securedraw-ui.tsx:77-79 | a sent list has one key per non-blank line, and, assuming the page is wired to `prelib.rs`'s `set(nuser: Vec<Pubkey>)` as the generated types show, `set` stores it exactly when there are at most 10 such lines |
| SecuredrawUi.HandleDrawPrompt | src/components/securedraw/securedraw-ui.tsx:129-135 | a draw is sent exactly when the answer is present, non-empty, numeric and different from the count shown, and it carries the parsed number |
| SecuredrawUi.PromptBeforeLoad | src/components/securedraw/securedraw-ui.tsx:61 | before the account is loaded the count shown is 0, so an answer of 0 sends nothing and any other number is sent |
| ProgramIds.ProgramId | anchor/src/securedraw-exports.ts:19-29 | `getSecuredrawProgramId` (and `getTmpdrawProgramId`, the same switch in `anchor/src/tmpdraw-exports.ts`) is total and returns one of exactly two ids: the fixed devnet id or the IDL address |
| ProgramIds.IdByCluster | anchor/src/securedraw-exports.ts:20-27 | devnet gives `CounNZdmsQmWh7uVngV9FXW2dZ6zAgbJyYsvBpqbykg`, testnet the same, mainnet-beta the IDL address, and any other cluster the same as mainnet-beta |
| ProgramIds.ProgramsShareDevnetId | anchor/src/tmpdraw-exports.ts:21-24 | on devnet and testnet the two programs resolve to the same id whatever their IDL addresses; elsewhere each resolves to its own |

## Left out

- The instructions `generateRandomness`, `getRandomness` and `init`: they appear only in the generated type data in `anchor/target/types/secure_draw.ts`, with no logic to model.
- The `test` instruction of `prelib.rs`: it parses an oracle feed through a foreign library and logs the price.
- The `msg!` loop in `prelib.rs` `set`: it only logs.
- The SHA-256 hash and `Clock::get()` in `prelib.rs` `increment`: foreign code and ledger time. The first hash byte is the `entropy` input, and a failing `Clock::get().unwrap()` is not modelled.
- Rent, lamports, the payer's transfer on `close = payer`, and signatures: the ledger model keeps only which accounts exist and their fields. `Update` requires no signer in the source, and the model has none either.
- Anchor's owner and discriminator checks: an account is modelled only as present or absent under its program, so an instruction naming another program's account is not modelled.
- `DrawProgram.Execute`: does not model the transaction-size limit on the `set` argument. The account-space limit is stricter for any list that matters here.
- `SecuredrawUi.HandleSetParticipants`: the returned `mutateAsync` promise, and any RPC error it rejects with, are not modelled. Such a rejection is not caught by the handler's `try`.
- `SecuredrawUi.Trim`: strings are sequences of Unicode scalar values, not UTF-16 code units. Unpaired surrogates, which `trim` keeps, cannot occur.
- `new PublicKey(text)` and `parseInt` are function parameters. Their own acceptance rules (base58, 32 bytes; JavaScript's number syntax) are not modelled.
- The React state and rendering of `securedraw-ui.tsx` are not modelled. This covers the title editing, the `window.confirm` before close, the "Results" button wired to `decrement`, and the prompt's default text.
- The react-query wrappers in `securedraw-data-access.tsx` and `tmpdraw-data-access.tsx`, and the feature pages `securedraw-feature.tsx` and `tmpdraw-feature.tsx`: network I/O and UI only.
- `next.config.mjs`: build configuration.
