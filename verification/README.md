# Shared-expense ledger of the Telegram expense bot, in Dafny

`bot.py` is a Telegram bot for splitting a group's expenses. Beneath its chat
plumbing there is a small ledger engine, and that engine is what this project
models and verifies:

* **The settlement planner** (`calculate_optimal_transactions`).
  - It splits the balances into debtors and creditors and sorts both lists
    by amount, largest first.
  - It then matches the current largest debtor with the current largest
    creditor for `min(debt, credit)`, until either list runs out.
  - Module `Settlement`, file `settlement.dfy`.
* **The balance engine** (`get_balances`).
  - Every member of the chat starts at zero.
  - For every expense with participants, each participant is debited an
    equal share and the payer is credited the full amount.
  - A payer or participant who is not a member makes the dictionary lookup
    fail.
  - Module `Balances`, file `balances.dfy`.
* **The ledger store.** The four SQLite tables (`groups`, `members`,
  `expenses`, `expense_members`) become a `Store` class over sequences. Its
  operations are the ones the handlers perform on the tables:
  - register a group (`send_welcome`);
  - register a member (`add_member_to_group`);
  - insert an expense with one link per participant (`finalize_expense`);
  - delete an expense with its links (`delete_expense`);
  - read the balances and the settlement plan (`show_transactions`).

  Module `Ledger`, file `ledger.dfy`.
* **The expense-entry conversation.**
  - The global dictionaries `user_states` and `expense_cache` become the
    fields of a `Sessions` class.
  - Each of the five handlers is a method on it, and each method is proved
    to perform a pure transition on a `Book` (both dictionaries together).
  - The handlers are `start_add_expense`, `handle_expense_creation`,
    `handle_payer_selection`, `add_member_to_expense` and
    `finalize_expense`.
  - Module `Session`, file `session.dfy`.
* **The string handling these rely on.** Python's `strip`, `split`, `str(int)`,
  `int(str)` and the decimal subset of `float(str)`, and the button payloads
  `prefix + str(id)`, which are read back with `int(data.split("_")[-1])`.
  Module `Text`, file `text.dfy`. Small list helpers are in `lists.dfy` and
  `Option`/`Result` in `wrappers.dfy`.

Amounts are `real`, so every division and subtraction is exact. That is what
makes the planner's `== 0` tests and the sum-to-zero property provable.

The headline results are:
- `Balances.BalancesSumToZero`: whenever `get_balances` returns, the
  balances of a chat sum to zero.
- `Settlement.PlanSettles`: when the balances sum to zero, carrying out the
  plan brings every balance to exactly zero.
- `Settlement.PlanNeverOverpays`: nobody pays more than they owe or receives
  more than they are owed.
- `Settlement.Plan`: the plan has at most `#debtors + #creditors - 1`
  transfers.
- `Ledger.LedgerSettles`: the two above chained through the store.
- `Session.DialogueCommitsParsed`: for every message the details parse
  accepts, the add-expense dialogue with one member commits the message's
  first field as the name and its second field, read by `float`, as the
  amount. `Text.ParseDecimalAccepts` and `Text.ParseDecimalPoint` say which
  amounts `float` reads and their values. `Session.AddExpenseDialogue`
  covers the case `name, n` with an integer `n`.

In three places the code does not do what its prompts, messages and
function names lead one to expect. The model follows the code:

* **`finalize_expense` does not always clear the session**, although its
  closing `pop` calls suggest it does.
  - When the draft has members but lacks `name`, `amount` or `payer_id`,
    building the insert raises `KeyError`.
  - This happens after a stale payer or member button is pressed. The
    exception is raised before both the insert and the two `pop` calls.
  - The model therefore has a third outcome, `MissingField`, in which
    nothing changes.
* **Clicking a member twice does not always restore the list**, although
  the prompt says that a second click deselects.
  - It restores the exact list only when the member was not selected
    before.
  - A selected member clicked twice moves to the end of the list, so only
    the multiset is restored (`Session.ToggleTwice`).
  - `Session.ToggleReorders` shows it: two clicks on member 1 turn `[1, 2]`
    into `[2, 1]`.
* **The "optimal" planner does not always find the fewest transfers.**
  - Debtors owing 3, 2, 2 and 1 against creditors owed 4 and 4 take five
    greedy transfers (`Settlement.GreedyNotMinimal`). Four transfers settle
    the same balances (`Settlement.FourTransfersSuffice`).
  - What is proved is the bound `#debtors + #creditors - 1`: each step
    drains at least one side (`Settlement.Plan`).
  - No plan can always meet `max(#debtors, #creditors)`. Debtors 3 and 3
    against creditors 2, 2 and 2 take four transfers
    (`Settlement.BoundExceedsMax`), and no plan does better, since no group
    of debtors owes exactly what a group of creditors is owed.

## Model

| member | source | states |
|---|---|---|
| Lists.Position | bot.py:273-274 | the index of the first occurrence of the value, or the length when it is absent; no earlier element equals the value |
| Lists.RemoveFirst | bot.py:274 | `list.remove` cuts out exactly the first occurrence: when the value is present the result is the list without the element at `Position`, one shorter and with one copy fewer in its multiset; when absent the list is unchanged |
| Lists.RemoveFirstNoDup | bot.py:273-274 | removing a member from a duplicate-free selection leaves a duplicate-free selection without that member |
| Text.Trim | bot.py:195 | `strip()` yields a string no longer than its input that neither starts nor ends with whitespace |
| Text.TrimInfix | bot.py:195 | what `strip()` keeps is one contiguous piece of the input, with only whitespace before and after it |
| Text.TrimSubset | bot.py:195 | `strip()` introduces no character: everything it keeps was in the input |
| Text.TrimKeepsCount | bot.py:195 | `strip()` removes only whitespace, so it keeps every comma of the message |
| Text.Split | bot.py:198 | `split(",")` yields one more piece than there are separators, and no piece contains the separator |
| Text.SplitJoin | bot.py:198 | splitting loses nothing: joining the pieces with the separator gives the original text |
| Text.IntToString | bot.py:229 | `str(n)` is non-empty, contains no underscore, point or comma, starts with a minus exactly when `n` is negative, ends with a digit, has no leading zero after the sign except in `0` itself, and is the plain digits of `n` when `n` is not negative |
| Text.ParseInt | bot.py:241 | `int(s)` reads a non-empty digit string as its value; any text it accepts ends in a digit once stripped; a negative result needs a leading minus |
| Text.ParseDecimal | bot.py:203 | `float(s)` reads a non-empty digit string as its value; a negative result needs a leading minus |
| Text.ParseDecimalAccepts | bot.py:202-205 | `float` succeeds exactly on a decimal numeral: an optional sign, then digits with at most one point and at least one digit; anything else is the "Amount must be a number" error |
| Text.ParseDecimalPoint | bot.py:203 | `w.f` for digit strings `w` and `f`, not both empty, reads as the digits of `w` and `f` together divided by ten to the length of `f` |
| Text.SignedDecimal | bot.py:203 | a `+` in front of an unsigned numeral keeps its value and a `-` negates it |
| Text.ParseDecimalWhole | bot.py:203 | a digit string after `+` or `-` reads as its value, negated after the minus |
| Text.ParseDecimalCents | bot.py:203 | `float("12.50")` is 12.5 |
| Text.IntToStringRoundTrip | bot.py:241 | `int(str(n)) == n` for every integer, negative ones included |
| Text.IntToStringParsesAsDecimal | bot.py:203 | `float(str(n))` is `n` for every integer |
| Text.EncodeCallback | bot.py:229 | the payload `f"{prefix}{user_id}"` starts with the prefix, and the rest has no underscore and reads back as the id with `int` |
| Text.DecodeCallbackId | bot.py:241 | a payload without an underscore is read whole with `int`, so for such payloads the decode is exactly `int(data)` |
| Text.CallbackIdRoundTrip | bot.py:241 | an id written into a button payload as `prefix + str(id)` (bot.py:229) is decoded back unchanged by `int(data.split("_")[-1])`, for any prefix that is empty or ends in `_` |
| Text.ParseIntBlanks | bot.py:241 | like `int(" 7")`, the parse ignores blanks around the digits and gives 7 |
| Text.DecodeCallbackIdBlanks | bot.py:241 | so the payload `x_ 7` still decodes to the id 7 |
| Balances.Initial | bot.py:339 | the starting dictionary has exactly the chat's members as keys, each at zero |
| Balances.GetBalances | bot.py:336-355 | the nested loops that update the dictionary in place compute `BalancesOf`, the fold of the expenses over the initial balances |
| Balances.DebitAllFails | bot.py:352-353 | debiting the participants fails exactly when some participant has no entry |
| Balances.DebitAllValues | bot.py:351-353 | after the debits, every key has lost the share once per occurrence among the participants, and no key is added |
| Balances.ApplyCharge | bot.py:350-354 | one expense is applied without `KeyError` exactly when it has no participants, or when its payer and all its participants are members; applying it never adds or drops a key |
| Balances.ApplyAll | bot.py:343-354 | the loop over the expenses never adds or drops a key |
| Balances.BalancesOf | bot.py:336-355 | when `get_balances` returns, its keys are exactly the chat's members |
| Balances.ApplyChargeValues | bot.py:350-354 | after one expense, each member's balance changes by the amount if it is the payer, minus the share times its number of occurrences among the participants; an expense without participants changes nothing |
| Balances.ApplyChargeSum | bot.py:350-354 | one expense leaves the keys and the sum of the balances unchanged |
| Balances.ApplyAllSum | bot.py:343-354 | the whole fold leaves the keys and the sum of the balances unchanged |
| Balances.BalancesDefined | bot.py:343-354 | `get_balances` returns rather than raising exactly when every expense passes `LookupsSucceed`: no participants, or a payer and participants that are all members |
| Balances.BalancesSumToZero | bot.py:336-355 | for a member list without repeats (which the `members` key guarantees), whenever `get_balances` returns, its keys are exactly the members and the balances sum to zero |
| Balances.DinnerExample | bot.py:336-355 | 100 paid by `a` and split over `a`, `b`, `c` gives `a` 200/3 and `b`, `c` -100/3 each |
| Settlement.Debtors | bot.py:434-436 | the debtor list has no more entries than there are balances; its amounts are stated by `PartitionPositive` and `PartitionAmounts` |
| Settlement.Creditors | bot.py:434-438 | the creditor list has no more entries than there are balances; its amounts are stated by `PartitionPositive` and `PartitionAmounts` |
| Settlement.Partition | bot.py:434-438 | the partition loop builds exactly `Debtors` (negative balances, negated) and `Creditors` (positive balances), in dictionary order |
| Settlement.PartitionPositive | bot.py:434-438 | every debtor and creditor amount is strictly positive, so zero balances are in neither list |
| Settlement.PartitionAmounts | bot.py:434-438 | with distinct user ids, a user's debtor amount is minus its balance when negative (else 0), and its creditor amount is its balance when positive (else 0) |
| Settlement.PartitionTotals | bot.py:434-438 | total credit minus total debt equals the sum of the balances |
| Settlement.Insert | bot.py:440-441 | one insertion step of the stable descending sort adds exactly the new entry |
| Settlement.SortDesc | bot.py:440-441 | `sort(key=amount, reverse=True)` is a permutation of its input |
| Settlement.InsertSorted | bot.py:440-441 | inserting into a descending list keeps it descending |
| Settlement.SortDescSorted | bot.py:440-441 | the sorted list is in descending order of amount |
| Settlement.InsertStable | bot.py:440-441 | an inserted entry goes ahead of every entry of equal amount already in the list |
| Settlement.SortDescStable | bot.py:440-441 | the sort is stable: for every amount, the entries with that amount leave in the order they came in, as Python's `sort` promises |
| Settlement.SortDescAmounts | bot.py:440-441 | sorting keeps each user's amount, the total, and positivity |
| Settlement.Match | bot.py:443-463 | the two-index `while` loop, which overwrites list entries in place, computes exactly the greedy matching `Greedy` |
| Settlement.MatchTurn | bot.py:446-461 | one turn of the loop emits the transfer `(debtor, creditor, min(debt, credit))` and continues with the lists as it leaves them |
| Settlement.CalculateOptimalTransactions | bot.py:430-463 | the whole function returns exactly `Plan`: greedy matching over the sorted partition |
| Settlement.Greedy | bot.py:443-463 | no transfers when either list is empty; otherwise at least one and at most `#debtors + #creditors - 1` |
| Settlement.GreedyStep | bot.py:449-461 | each settled amount is strictly positive; after a turn, both lists stay positive, and the debtor's and the creditor's amounts and totals drop by exactly the settled amount |
| Settlement.GreedyTransfers | bot.py:446-450 | every transfer has a positive amount, runs from a debtor and goes to a creditor |
| Settlement.GreedyPaidBound | bot.py:449-456 | no debtor pays more in total than it owed |
| Settlement.GreedyReceivedBound | bot.py:449-456 | no creditor receives more in total than it was owed |
| Settlement.GreedyMoved | bot.py:445-461 | the transfers move exactly the smaller of total debt and total credit |
| Settlement.GreedySettles | bot.py:445-461 | when total debt equals total credit, every debtor pays exactly its debt and every creditor receives exactly its credit |
| Settlement.Plan | bot.py:430-463 | no transfers when there are no debtors or no creditors; otherwise at least one and at most `#debtors + #creditors - 1` |
| Settlement.PlanBounds | bot.py:430-463 | under the plan, each user pays at most its debtor amount and receives at most its creditor amount |
| Settlement.PlanNeverOverpays | bot.py:430-463 | with distinct ids, nobody pays more than minus its negative balance, nobody receives more than its positive balance |
| Settlement.PlanTransfers | bot.py:430-463 | every planned transfer has a positive amount and runs from a user with a negative balance to one with a positive balance |
| Settlement.PlanDrains | bot.py:430-463 | when the balances sum to zero, each user pays exactly its debt and receives exactly its credit |
| Settlement.PlanSettles | bot.py:430-463 | when the balances sum to zero and the ids are distinct, each balance plus what it pays minus what it receives is exactly zero |
| Settlement.DinnerSettlement | bot.py:430-463 | balances 200/3, -100/3, -100/3 are settled by the two transfers `b -> a` and `c -> a` of 100/3 each |
| Settlement.BoundExceedsMax | bot.py:443-463 | debtors owing 3 and 3 against creditors owed 2, 2 and 2 need four transfers, more than `max(#debtors, #creditors)` |
| Settlement.GreedyNotMinimal | bot.py:430-463 | debtors owing 3, 2, 2 and 1 against creditors owed 4 and 4 take five transfers from the greedy matching |
| Settlement.FourTransfersSuffice | bot.py:430-463 | for those balances, four transfers pay every debtor and every creditor exactly its amount, one fewer than the greedy matching makes |
| Ledger.Register | bot.py:68-73 | a group or supergroup chat without a row gains one under its title; an existing row keeps its title; other chat kinds change nothing |
| Ledger.RegisterIdempotent | bot.py:68-73 | sending `/start` again changes nothing, whatever the title now is |
| Ledger.Store.SendWelcome | bot.py:66-73 | the store part of `send_welcome` performs `Register`, keeps the table invariant and touches no other table |
| Ledger.DisplayName | bot.py:409 | `username or first_name`: a non-empty username is used as it is; the name is empty exactly when the username is missing or empty and the first name is empty |
| Ledger.Join | bot.py:410-413 | after registration the user is a member of the chat; an existing row is kept as it was; otherwise exactly one row is appended |
| Ledger.JoinUnique | bot.py:410-413 | registration keeps `(user_id, chat_id)` unique, and registering twice is the same as registering once |
| Ledger.Store.AddMemberToGroup | bot.py:405-413 | the lookup loop and conditional insert perform `Join` with `username or first_name` as the display name, and keep the table invariant |
| Ledger.MemberIdsIn | bot.py:337-338 | every user with a row in the chat is listed, and there are no more ids than rows |
| Ledger.MemberIdsInMembers | bot.py:337-339 | the member query lists exactly the users with a row in that chat |
| Ledger.MemberIdsInNoDup | bot.py:337-339 | because `(user_id, chat_id)` is unique, no member is listed twice |
| Ledger.LinksFor | bot.py:304-308 | one link per participant, in order, all under the new expense id |
| Ledger.ParticipantsIn | bot.py:347-349 | a user is listed exactly when a link row joins it to the expense, and there are no more ids than link rows |
| Ledger.ChargesIn | bot.py:341-349 | no more charges than expense rows; a chat without expense rows has no charges |
| Ledger.LinksRoundTrip | bot.py:304-308 | reading back the links of a freshly inserted expense gives its participant list exactly, and every other expense keeps its participants |
| Ledger.InsertAddsCharge | bot.py:292-309 | inserting an expense under a fresh id adds exactly one charge to its own chat, with the participants as given, and leaves every other chat's charges unchanged |
| Ledger.Store.InsertExpense | bot.py:292-309 | the expense row is appended under the next AUTOINCREMENT id, which is returned, followed by one link per participant, and the store stays consistent |
| Ledger.WithoutExpense | bot.py:389 | no row with the deleted id remains, and no row is added |
| Ledger.WithoutLinks | bot.py:390 | no link of the deleted expense remains, and no link is added |
| Ledger.WithoutExpenseExactly | bot.py:389 | after the delete, an expense row remains exactly when it was there and has another id; deleting a missing id changes nothing |
| Ledger.WithoutLinksExactly | bot.py:390 | after the delete, a link remains exactly when it was there and belongs to another expense; deleting a missing id changes nothing |
| Ledger.WithoutExpenseValid | bot.py:389 | deleting keeps expense ids unique and below the counter |
| Ledger.WithoutLinksValid | bot.py:390 | deleting keeps links duplicate-free and below the counter |
| Ledger.Store.DeleteExpense | bot.py:387-393 | it decodes the id from the payload; if that raises, nothing changes; otherwise it deletes that expense row and its links, even for a missing id, and keeps the store consistent |
| Ledger.Store.GetBalances | bot.py:336-355 | `get_balances` on the store computes `BalancesOf` the chat's members and the chat's expenses with their linked participants |
| Ledger.Store.ShowTransactions | bot.py:417-419 | `show_transactions` yields the settlement plan over the chat's balances in member order, or nothing when `get_balances` raises |
| Ledger.Items | bot.py:434 | `balances.items()` pairs each member with its balance, in member order |
| Ledger.BalanceKeys | bot.py:339 | every member of the chat has an entry in the returned balances |
| Ledger.ItemsSum | bot.py:434 | the items sum to the same total as the dictionary |
| Ledger.LedgerSettles | bot.py:417-419 | for any consistent store whose balances are defined, every member of the chat ends at exactly zero after the planned transfers |
| Ledger.Store.constructor | bot.py:24-57 | the tables start empty, with the counter at 1 |
| Session.Fields | bot.py:198 | the comprehension yields one trimmed field per comma-separated piece |
| Session.ParseDetails | bot.py:195-205 | a field-count error exactly when the message does not hold exactly one comma; a non-numeric-amount error exactly when there are two fields and the second does not parse with `float`; on success the name is the first stripped field (so it has no comma and no outer blanks), and the amount is the second field as `float` reads it |
| Session.ParseDetailsRoundTrip | bot.py:195-207 | `"name, n"` for a name without commas or outer blanks is parsed back as that name and the amount `n` |
| Session.ParseDinner | bot.py:186 | the prompt's own example `Dinner, 100` parses as name `Dinner` and amount 100 |
| Session.Toggle | bot.py:273-277 | a selected member is removed once (the list is one shorter and has one copy fewer in its multiset); an unselected member is appended at the end |
| Session.ToggleFlips | bot.py:273-277 | on a duplicate-free selection, a click flips the clicked member and no other, and the selection stays duplicate-free |
| Session.ToggleTwice | bot.py:273-277 | two clicks on the same member restore the selection as a multiset; they restore the very same list when the member was not selected before |
| Session.ToggleReorders | bot.py:273-277 | two clicks on member 1 turn `[1, 2]` into `[2, 1]`: the list is reordered, not restored |
| Session.Start | bot.py:179-181 | the user is put in `awaiting_expense_details` with a fresh draft for the chat, and no other user's state or draft changes |
| Session.EnterDetails | bot.py:191-211 | it succeeds exactly when `ParseDetails` does; on an error nothing changes and the error is reported; on success the draft gains exactly the parsed name and amount, the user awaits the payer, and nothing else changes |
| Session.SelectPayer | bot.py:239-251 | it fails exactly when the payload does not end in an integer; otherwise the user awaits member selection, and the draft (a new one for the chat when missing) records the decoded payer, keeps its chat, name and amount, keeps an existing member list or gets an empty one; nothing else changes |
| Session.ToggleMember | bot.py:262-278 | it fails exactly when the payload does not end in an integer; otherwise the states are unchanged, the draft's member list (an empty one when missing) is toggled and nothing else changes; the acknowledgement is Added exactly when the member was not selected |
| Session.Decide | bot.py:290-299 | an expense is committed exactly when the draft exists with a non-empty member list and name, amount and payer, carrying those values; `MissingField` exactly when it has the member list but lacks one of the three |
| Session.Finalize | bot.py:288-324 | the outcome is `Decide` on the user's draft; on `MissingField` nothing changes; otherwise the user's state and draft are removed and nothing else changes |
| Session.StartKeepsValid | bot.py:179-181 | starting keeps the session invariant, puts the user in `awaiting_expense_details` with a fresh draft, and changes no other user's state or draft |
| Session.EnterDetailsSteps | bot.py:191-211 | entering details keeps the invariant; a field-count error occurs exactly when the message lacks exactly one comma; it succeeds exactly when `ParseDetails` does; on any error nothing changes; on success exactly the name and amount are stored, the user awaits the payer, and nothing else changes |
| Session.SelectPayerSteps | bot.py:239-251 | it fails exactly when the payload does not end in an integer; otherwise it keeps the invariant, moves the user to member selection, records the decoded payer, keeps the draft's chat, name, amount and existing member list, creates `(chat, payer, [])` when there was no draft, and changes no other user's state or draft |
| Session.ToggleMemberSteps | bot.py:262-278 | it fails exactly when the payload does not end in an integer; otherwise it keeps the invariant and every state, acknowledges Added exactly when the member is now selected, flips the clicked member and no other, keeps the draft's other fields and changes no other user's draft |
| Session.FinalizeSteps | bot.py:288-324 | an expense is committed exactly when the draft exists with a non-empty member list and all fields, carrying the draft's values; `MissingField` occurs exactly when the draft has that list but lacks a field, and then nothing changes; otherwise the user's state and draft are removed and nothing else changes |
| Session.DialogueCommitsParsed | bot.py:168-324 | `/addexpense`, any message `ParseDetails` accepts, the payer button, one member button and Done commit the first field as the name and the parsed second field as the amount, paid by that payer and split over that member, and leave no session behind |
| Session.AddExpenseDialogue | bot.py:168-324 | `/addexpense`, then `name, n`, the payer button, one member button and Done commit exactly that expense and leave no session behind |
| Session.Sessions.constructor | bot.py:61-62 | both dictionaries start empty |
| Session.Sessions.StartAddExpense | bot.py:168-181 | both dictionaries are updated as `Start` says, and the invariant is kept |
| Session.Sessions.HandleExpenseCreation | bot.py:191-211 | the message is parsed and both dictionaries are updated as `EnterDetails` says, with the reported error |
| Session.Sessions.HandlePayerSelection | bot.py:239-251 | the payload is decoded; on failure nothing changes; otherwise both dictionaries are updated as `SelectPayer` says |
| Session.Sessions.AddMemberToExpense | bot.py:262-278 | the payload is decoded; on failure nothing changes; otherwise the selection is toggled in place as `ToggleMember` says |
| Session.Sessions.FinalizeExpense | bot.py:288-324 | the sessions change as `Finalize` says; on commit the store gains the expense under the next id with its links, and the chat gains exactly that charge; otherwise the store is unchanged |

## Left out

- Telegram I/O is not modelled. This covers sending and editing messages,
  callback answers, keyboards (`get_member_keyboard`, `get_main_menu`),
  `send_help`, polling and the handler decorators. The one exception is
  the filter of `handle_expense_creation`, which is the precondition of
  `Session.Sessions.HandleExpenseCreation`.
- Dispatch is not modelled: `handle_callback` (bot.py:114-140), the command
  wrappers, and the catch-all `get_chat_id` (bot.py:465-470). telebot runs
  the first handler whose filter matches. A group message from a user
  without a session therefore reaches `add_member_to_group` through its
  own filter (bot.py:401-404). `get_chat_id` is reached only by what no
  earlier handler takes, such as group text from a user who is choosing
  a payer or members, and it then registers that user too. The model has
  the registration itself but not the dispatch.
- Message formatting is not modelled: `show_balances`, the `:.2f` rounding,
  `get_username`, the history listing `show_expense_history` with its
  `ORDER BY date` over timestamp strings, and `edit_expense`, which is a
  placeholder. All of these only read the store and print.
- SQLite specifics are not modelled: the connection, SQL text and
  multi-statement atomicity. Each store method is one step. An id freed by
  a delete is never reused, as with AUTOINCREMENT.
- Ledger.Store.GetBalances reads rows in insertion order. SQL without
  `ORDER BY` promises no order. The balance values do not depend on it:
  each expense's effect is stated per member in
  `Balances.ApplyChargeValues`. The member order does matter elsewhere:
  it is the order of `balances.items()`, hence the tie order of the stable
  sorts, and so it decides which transfers Ledger.Store.ShowTransactions
  returns.
- `datetime.now()` is not modelled: the timestamp is the `date` parameter
  of `Session.Sessions.FinalizeExpense`.
- Floating point is not modelled: amounts are exact `real`. In particular,
  the planner's `== 0` tests are exact here, and
  Settlement.CalculateOptimalTransactions does not model float rounding
  of the shares.
- Text.ParseDecimal accepts only the decimal subset of `float()`: an
  optional sign, ASCII digits and an optional point. `inf`, `nan`,
  exponents, underscores and non-ASCII digits are not accepted.
- Text.Trim treats only ASCII whitespace as whitespace. Python's `strip()`
  also removes Unicode spaces.
- Text.ParseInt reads ASCII text only. It strips the whitespace of
  Text.Trim around an optional sign and digits. It does not accept the
  underscores between digits or the non-ASCII digits and spaces that
  Python's `int()` accepts. The callback ids are read after the last
  underscore, so they never contain one.
- Ledger.Store.AddMemberToGroup takes the user name and first name as
  parameters. The Telegram user object is not modelled.
- Concurrency is not modelled: several handlers share the global
  dictionaries and the connection.
