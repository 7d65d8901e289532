# Ledger of the task-reward chat bot

This project models the account ledger of a Telegram bot. Users earn credits
("FC") by asking for tasks, refer each other for a bonus, and request
withdrawals. The state is a record store with two collections: `users` and
`paiements` (payout requests). Each bot command is one transition on that
store, applied one at a time:

- `initUser` creates an account for a chat on first contact. The account
  has a balance (`solde`) of 0, an empty `historique`, no referrer
  (`parrain`) and a fresh referral code (`id`).
- `/start <code>` records a referrer at most once and credits the code's
  owner with 50.
- `/taches` appends a `tache` entry to the history and adds 50 to the
  balance.
- `/retirer` refuses balances under 100. Otherwise it records a payout of
  the whole balance and sets the balance to 0.
- `/solde` and `/moncode` only read the account. `/payer` does not touch
  the store.

Modules:

- `Wrappers` (wrappers.dfy): `Option`.
- `Ledger` (ledger.dfy): the records, the constants, the `find` lookups,
  the store invariants (`Valid`) and the append-only relation `Extends`.
- `Accounts` (accounts.dfy): the four transitions as pure functions, each
  with lemmas showing it extends the store and keeps the invariants.
- `Commands` (commands.dfy): the command dispatcher `Handle`, runs of
  commands (`Run`), and properties over several commands.

Non-deterministic inputs are parameters. `nanoid()` becomes `Env.userId`
for the code of a new account and `Env.eventId` for task and payout ids.
`new Date().toISOString()` becomes `Env.date`, an opaque string. The
transitions accept any values. Only the lemmas about distinct referral codes
assume that a newly drawn code is unused, since `nanoid()` is expected to
provide that: `Accounts.InitUserPreservesValid` and
`Commands.HandlePreservesValid` assume `Registered(s, chatId) ||
!IsCode(s, freshId)`, and `Commands.RunPreservesValid` assumes
`FreshCodes`. Non-negative balances and distinct chat ids need no such
assumption (`Commands.HandleKeepsCore`, `Commands.RunKeepsCore`).

JavaScript truthiness is kept. The referral applies when the code is
present and non-empty, and the account's `parrain` is absent or empty
(`Truthy`). Lookups return the first match, as `Array.prototype.find`
does. The two referral updates are applied in sequence. So when an account
names its own code, it becomes its own referrer and also gets the bonus.
index.js:40-44 has no self-referral check, and neither does the model
(`Commands.SelfReferral`).

## Model

| member | source | states |
|---|---|---|
| Ledger.FindFirst | index.js:25 | the index returned is the first element satisfying the predicate; none is returned only when no element satisfies it |
| Ledger.Lookup | index.js:25 | a chat lookup succeeds exactly when some account has that chat id, and it returns the first such account |
| Ledger.LookupCode | index.js:41 | a code lookup succeeds exactly when some account owns the code, and it returns the first owner |
| Ledger.EmptyStoreValid | index.js:13-16 | the default document written at startup satisfies every store invariant |
| Ledger.LookupStable | index.js:25-27 | once a chat has an account, every later version of the store resolves the chat to the same position |
| Ledger.LookupCodeStable | index.js:41 | once a code is owned, every later version of the store resolves it to the same owner |
| Accounts.InitUser | index.js:23-30 | afterwards the chat has an account; an existing account leaves the store identical; otherwise exactly one account is appended with balance 0, empty history, no referrer and the drawn code; earlier accounts and payouts are untouched |
| Accounts.InitUserIdempotent | index.js:25-29 | a second initUser for the same chat returns the store unchanged, whatever code it draws |
| Accounts.InitUserUnique | index.js:25-27 | with distinct chat ids before, they stay distinct, and the one account with the chat id is the one lookups return |
| Accounts.InitUserExtends | index.js:27 | initUser extends the store, and every existing account and the payouts are exactly unchanged |
| Accounts.InitUserPreservesValid | index.js:26-27 | with an unused drawn code, balances stay non-negative and chat ids, codes, referrers and payouts stay consistent |
| Accounts.ApplyReferral | index.js:39-46 | the store changes if and only if a code is given, the account has no referrer, and some account owns the code; then exactly the account's referrer becomes the code and exactly the code's first owner gains 50, with payouts untouched |
| Accounts.ReferralExtends | index.js:40-44 | a referral extends the store: no account removed, chat ids and codes kept, a set referrer never overwritten; every history and the payouts are exactly unchanged |
| Accounts.ReferralPreservesValid | index.js:41-44 | after a referral every invariant still holds; the recorded referrer names an existing code |
| Accounts.GrantTask | index.js:66-75 | the caller's balance grows by exactly 50, its history gains exactly one `tache` entry with the task id and gain 50, and every other account and all payouts are unchanged |
| Accounts.GrantTaskExtends | index.js:74-75 | a task grant extends the store, the payouts are unchanged, and every account other than the caller's is exactly unchanged |
| Accounts.GrantTaskPreservesValid | index.js:74-75 | after a task grant every invariant still holds |
| Accounts.RequestWithdrawal | index.js:87-101 | no payout is made if and only if the balance is under 100, and then the store is unchanged; otherwise exactly one payout is appended, for the caller's chat with the prior balance as amount, and only the caller's balance changes, to 0 |
| Accounts.WithdrawalExtends | index.js:100-101 | a withdrawal extends the store (payouts only appended), keeps the number of accounts, and leaves every account's history and referrer exactly unchanged |
| Accounts.WithdrawalPreservesValid | index.js:89-101 | after a withdrawal balances stay non-negative, and every payout is at least 100 and belongs to a known chat |
| Commands.Handle | index.js:34-119 | every command only extends the store; `/payer` leaves it unchanged; every other command leaves the chat with an account; a user is added only when the chat had none; a payout is added only when the reply reports one; `/solde` and `/moncode` change nothing beyond initUser and report the account's balance and code |
| Commands.HandlePreservesValid | index.js:23-105 | every command keeps every invariant, given that a newly drawn code is unused |
| Commands.HandleKeepsCore | index.js:23-105 | every command keeps all balances non-negative and all chat ids pairwise distinct, with no assumption on the drawn codes |
| Commands.RunKeepsCore | index.js:23-119 | over any sequence of commands, all balances stay non-negative and chat ids stay pairwise distinct, with no assumption on the drawn codes |
| Commands.HandleCodes | index.js:27 | a command adds no referral code other than the one it drew |
| Commands.RunExtends | index.js:23-119 | over any sequence of commands, accounts and payouts are append-only, histories only grow, and a set referrer is never changed |
| Commands.RunPreservesValid | index.js:23-119 | over any sequence of commands with distinct, unused drawn codes, balances stay non-negative and chat ids stay pairwise distinct, as do the other invariants |
| Commands.RunFromEmptyValid | index.js:13-16 | every sequence of commands started from the default document, with distinct drawn codes, ends in a store satisfying every invariant |
| Commands.TaskEntries | index.js:74 | one `tache` history entry per task issuance, in order, carrying its id and the gain 50 |
| Commands.TachesOnKnownChat | index.js:63-76 | for a chat that has an account, `/taches` is exactly one task grant with the drawn task id |
| Commands.MonCodeOnKnownChat | index.js:112-116 | for a chat that has an account, `/moncode` changes nothing and reports the account's code |
| Commands.TachesAccumulate | index.js:68-75 | N `/taches` for a chat with an account add exactly 50*N to its balance and append exactly the N task entries to its history |
| Commands.FreshTaches | index.js:63-76 | from a chat with no account, N > 0 `/taches` give a balance of exactly 50*N and a history of exactly the N task entries |
| Commands.WithdrawalRefused | index.js:86-91 | `/retirer` below 100 records no payout and changes nothing beyond creating the account |
| Commands.WithdrawalThenBalance | index.js:86-104 | `/retirer` at 100 or more records exactly one payout of the whole balance for the caller, and a following `/solde` reports 0 |
| Commands.ReferrerSetOnce | index.js:40 | once a referrer is set, `/start` with any code leaves the store identical and grants no bonus |
| Commands.ReferrerPersists | index.js:40-43 | a set referrer keeps its value through any later sequence of commands |
| Commands.NewUserReferral | index.js:37-46 | `/start <code>` from a new chat with an owned code gives the new account referrer `code` and balance 0, adds 50 to the owner, and changes no other existing account |
| Commands.SelfReferral | index.js:39-44 | in a store with distinct codes, an account without a referrer that sends its own code becomes its own referrer and gains 50 |
| Commands.MonCodeStable | index.js:112-116 | `/moncode` reports the same code for a chat, whatever commands run in between |

## Left out

- Telegram transport: the bot construction, polling, `sendMessage` and the
  reply texts. Replies are reduced to the data they show (`Reply`).
- Command matching by `bot.onText` regular expressions. A command arrives
  as a `Command` value, and the optional `/start` argument is an
  `Option<string>`.
- lowdb persistence: `db.read()`, `db.write()` and the default-document
  bootstrap. The store is a value passed in and returned, and `EmptyStore`
  is the default document. A failed read or write is not modelled.
- The unused `taches` collection of the document. No command writes it.
- Concurrency. Handlers run one after another, so the lost update between
  interleaved handlers is not modelled.
- `nanoid` and `Date`. Their results are parameters. Uniqueness of task
  and payout ids is neither assumed nor proved.
- JavaScript numbers are IEEE doubles. Balances are unbounded integers
  here, so precision loss above 2^53 is not modelled.
- Accounts.ApplyReferral: requires the chat to have an account, which the
  `/start` handler guarantees by calling initUser first. Without one, the
  source, with a code given, would throw a `TypeError`; with no code it
  would do nothing. Neither path is modelled.
- Accounts.GrantTask: requires the chat to have an account, as the
  `/taches` handler guarantees; the `TypeError` path is not modelled.
- Accounts.RequestWithdrawal: requires the chat to have an account, as the
  `/retirer` handler guarantees; the `TypeError` path is not modelled.
