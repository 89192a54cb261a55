# Spending ledger of BendaharaMeongBot, in Dafny

BendaharaMeongBot is a Telegram bot that keeps a record of what each user spends.
This project models its in-memory spending ledger, which lives in `main.py`:

- **Amount extraction** (`log_spending`). The message text is split on
  whitespace, as Python's `str.split()` splits it. The amount is `int(word)` of
  the first word made only of digits, or `None` when no word is. Python
  truthiness then decides whether to record it, so a parsed `0` is handled
  like a missing amount.
- **Per-user ledger** (`daily_spending`, `log_spending`, `today`). This is a
  dictionary from user id to a list of amounts. A recorded amount is appended
  to the user's list, which is created if it is missing. `today` answers with
  the sum of the user's list, or 0 when the user has no list.
  Nothing ever empties `daily_spending`. So despite the names, `today` reports
  everything the user logged since the process started, not what they spent
  today; `ReplayTotal` states exactly this.

Files:

- `AmountParser.dfy` (module `AmountParser`) holds the pure extraction.
  - `SplitWords` is the scan behind `str.split()`. Three lemmas determine it
    on every text: `SplitAllSpace`, `SplitSingleWord` and `SplitAtSpace`.
  - `DecimalValue` is `int()` on a word of digits. `DecimalString` renders a
    `nat` as digits, and `DecimalRoundTrip` proves that `DecimalValue` reads
    the rendering back.
  - `FirstDigitWord` is the `next(...)` over the digit words.
  - `ParseAmount` composes the split and the search.
- `SpendingLedger.dfy` (module `SpendingLedger`) holds the ledger.
  - Pure functions on the dictionary value: `Entries` (`dict.get(user, [])`),
    `Sum`, `Total`, `Append` (`setdefault(...).append(...)`) and `Step`
    (one handled message).
  - `Replay` handles a stream of messages. `RecordedBy` is an independent
    reference that lists the amounts a user's messages record.
  - Class `Ledger` is the global `daily_spending` dictionary. Its field
    `spending` is a `map<UserId, seq<nat>>`. Method `LogSpending` updates the
    field in place and returns the abstract reply: `Recorded(amount)` or
    `Rejected`. Function `Today` is the `today` query. `Valid()` states the
    invariant that every stored amount is positive.

Whitespace is the set of characters Python's `str.isspace()` accepts. These
are U+0009–U+000D, U+001C–U+001F, U+0020, U+0085, U+00A0, U+1680,
U+2000–U+200A, U+2028, U+2029, U+202F, U+205F and U+3000. Digits are the
ASCII digits `'0'..'9'`.

## Model

| member | source | states |
|---|---|---|
| `AmountParser.IsSpace` | main.py:16 | the whitespace set `str.split()` splits at (the characters `str.isspace()` accepts); a definition, used by `SplitWords` and the split lemmas |
| `AmountParser.IsDigits` | main.py:17 | `word.isdigit()` for ASCII digits only (see "## Left out"); a definition, used by `FirstDigitWord`, `FirstDigitPrefix` and `NonDigitWordSkipped` |
| `AmountParser.SplitWords` | main.py:16 | `text.split()`; no `ensures` of its own, fixed on every text by `SplitAllSpace`, `SplitSingleWord` and `SplitAtSpace`, with `SplitWordsAreWords` for the shape of each word |
| `AmountParser.DecimalValue` | main.py:17 | `int(word)` on a digit word; no `ensures` of its own. Its body is the positional value `int()` computes; `DecimalConcat` states that value for every split of the word, `DecimalRoundTrip` shows it reads back every rendering `DecimalString(n)` as `n`, and `ValueZeroIff` and `LeadingZeros` prove the two facts the truthiness gate and `"007"` rely on |
| `AmountParser.ParseAmount` | main.py:16-17 | the split followed by the `next(...)` search; no `ensures` of its own, specified by `FirstNumberWins`, `NonDigitWordIgnored` and `ZeroFirstBlocksLater` and through `FirstDigitWord` and `FirstDigitPrefix` |
| `AmountParser.SplitWordsAreWords` | main.py:16 | every word `text.split()` yields is non-empty and contains no whitespace |
| `AmountParser.SplitAllSpace` | main.py:16 | a text made only of whitespace (including the empty text) yields no words |
| `AmountParser.SplitSingleWord` | main.py:16 | a non-empty text without whitespace yields exactly itself as the one word |
| `AmountParser.SplitAtSpace` | main.py:16 | splitting `a + c + b` at a whitespace character `c` yields the words of `a` followed by the words of `b`; runs of whitespace therefore act as one separator, and with the two lemmas above this fixes the result for every text |
| `AmountParser.DecimalConcat` | main.py:17 | `int(u + v) == int(u) * 10^len(v) + int(v)` for any two digit words: the positional value of every digit |
| `AmountParser.DigitChar` | main.py:17 | the ASCII digit of a value below 10 is a digit whose value is that value |
| `AmountParser.DecimalString` | main.py:17 | the rendering `str(n)` of a `nat` is a digit word with no leading zero (except for `n == 0`) |
| `AmountParser.DecimalRoundTrip` | main.py:17 | `int(str(n)) == n` for every `n`: the word of digits of any amount reads back as that amount |
| `AmountParser.DigitValue` | main.py:17 | an ASCII digit's value is below 10 and is 0 exactly for `'0'` |
| `AmountParser.ValueZeroIff` | main.py:17-19 | `int(word)` of a digit word is 0 exactly when every digit is `'0'` (`"0"`, `"000"`), so these are exactly the digit words the truthiness test rejects |
| `AmountParser.LeadingZeros` | main.py:17 | leading zeros do not change `int(word)` (`"007"` is 7) |
| `AmountParser.FirstDigitWord` | main.py:17 | the search gives `None` exactly when no word is made only of digits |
| `AmountParser.FirstDigitPrefix` | main.py:17 | when the words before `w` contain no digit word and `w` is a digit word, the amount is `int(w)`, whatever follows |
| `AmountParser.NonDigitWordSkipped` | main.py:17 | removing a word that is not all digits from any position never changes the search's result |
| `AmountParser.SplitAfterBoundary` | main.py:16 | the words of `pre + x`, where `pre` is empty or ends in whitespace, are the words of `pre` followed by those of `x` |
| `AmountParser.SplitWordBeforeBoundary` | main.py:16 | a word followed by nothing or by whitespace is the first word of the text, and the rest splits on its own |
| `AmountParser.SplitAroundWord` | main.py:16 | a word standing between whitespace or the ends of the text is one word of the whole text, between the words of what precedes and what follows |
| `AmountParser.FirstNumberWins` | main.py:16-17 | in a message `pre + w + post` where the digit word `w` stands between whitespace or the ends of the text (`"15000"`, `"makan 15000"`, `"15000 makan"`) and `pre` holds no digit word, the parsed amount is `int(w)`; later numeric words are ignored |
| `AmountParser.NonDigitWordIgnored` | main.py:16-17 | removing a word with any non-digit character (`-500`, `15.000`, `Rp15000`, `12k`) from a message, wherever it stands between whitespace or the ends of the text, never changes the parsed amount |
| `AmountParser.ZeroFirstBlocksLater` | main.py:16-19 | when the first digit word of a message is all zeros (`"0"`, `"000"`, at the start, middle or end of the text), the parsed amount is 0, even if a positive number follows |
| `AmountParser.ExampleCurrencyPrefix` | main.py:16-17 | `"Rp15000"` has no amount |
| `AmountParser.ExampleZeroFirst` | main.py:16-19 | `"0 5000"` parses to 0, so 5000 is not recorded |
| `SpendingLedger.Sum` | main.py:27 | `sum(...)` of a list; no `ensures` of its own, specified by `SumAppend` and `SumConcat` |
| `SpendingLedger.Total` | main.py:27 | `sum(daily_spending.get(user_id, []))`; no `ensures` of its own, specified by `AppendTotal`, `ReplayTotal` and `Ledger.Today` |
| `SpendingLedger.Step` | main.py:17-20 | the dictionary after one `log_spending` call; no `ensures` of its own, specified by `StepKeepsPositive` and `ReplayEntries`, and tied to the method by `Ledger.LogSpending` |
| `SpendingLedger.Replay` | main.py:11-20 | the dictionary after `log_spending` handles a stream of messages in order; no `ensures` of its own, specified by `ReplayEntries` and `ReplayTotal` |
| `SpendingLedger.RecordedBy` | main.py:17-20 | the reference list of amounts a user's messages record, in order; no `ensures` of its own, related to `Replay` by `ReplayEntries` |
| `SpendingLedger.Truthy` | main.py:19 | the `if amount:` test: false for `None` and for `0`; a definition, used by `AmountToRecord` and `Ledger.LogSpending` |
| `SpendingLedger.AmountToRecord` | main.py:17-19 | a message records an amount exactly when its parsed amount is truthy (present and non-zero); the recorded amount is positive and equals the parsed one |
| `SpendingLedger.Append` | main.py:20 | `setdefault(user, []).append(amount)` adds `user` as a key, makes the user's list the old list (or `[]`) followed by `amount`, and leaves every other user's list unchanged |
| `SpendingLedger.SumAppend` | main.py:27 | appending `a` to a list adds `a` to its `sum` |
| `SpendingLedger.SumConcat` | main.py:27 | the `sum` of two joined lists is the sum of their sums |
| `SpendingLedger.AppendTotal` | main.py:20-27 | after appending `a` for a user, that user's `today` total has grown by exactly `a`, and every other user's total is unchanged |
| `SpendingLedger.StepKeepsPositive` | main.py:17-20 | handling any message keeps every stored amount strictly positive |
| `SpendingLedger.ReplayEntries` | main.py:19-20 | after any stream of messages, each user's list is the earlier list followed by exactly the amounts that user's messages recorded, in order |
| `SpendingLedger.ReplayTotal` | main.py:19-27 | after any stream of messages, a user's `today` total has grown by the sum of the amounts that user's messages recorded; starting from the empty dictionary, the total is that sum |
| `SpendingLedger.Ledger.constructor` | main.py:6 | the ledger starts as the empty dictionary and satisfies the positivity invariant |
| `SpendingLedger.Ledger.Today` | main.py:25-27 | `today` is 0 for a user with no entry; under the invariant, it is 0 exactly when the user has recorded nothing; it reads the ledger and does not change it |
| `SpendingLedger.Ledger.LogSpending` | main.py:11-23 | the reply is `Recorded(a)` exactly when the parsed amount is truthy, with `a` the parsed amount and `a > 0`; then `a` is appended to the user's list (created if absent) and the user's total grows by `a`; otherwise the ledger is unchanged; other users' lists and totals never change; the new state is `Step` of the old; the positivity invariant is kept |

## Left out

- `db_postgres.py` (connection, table setup, insert, daily and weekly totals, entry listing, deleting the last entry, time zones): each operation is SQL run by PostgreSQL through `pg8000`, so the behaviour is in the database engine, not in visible code.
- The Telegram transport: `start`, every `reply_text` call, `ApplicationBuilder`, handler registration and `run_polling`. These are asynchronous I/O through a foreign library. A reply is modelled only as the abstract outcome `Recorded(amount)` or `Rejected`.
- The thousands-separator rendering `f"{amount:,}"` of the replies: presentation formatting done by a library formatter.
- Non-ASCII digits: only `'0'..'9'` are digits here. Python's `str.isdigit()` also accepts the decimal digits of other scripts (`"١٥٠٠٠"`, `"１５０００"`), and `int()` turns these into 15000, so the bot records that amount; the model skips such a word and gives `None` or a later ASCII number instead. `isdigit()` also accepts superscript, subscript, circled and parenthesised digits, on which `int()` raises; the model skips those words as well.
- Concurrency and process lifetime of the global dictionary under the asynchronous event loop: the model is one sequential ledger.
- Receipt photos: the `/start` greeting invites them (`foto struk nanti`, main.py:9), but no handler reads a photo, so there is nothing to model.
- `IsSpace`, `IsDigits`, `Truthy`, `SplitWords`, `DecimalValue`, `ParseAmount`, `Entries`, `Sum`, `Total`, `Step`, `Replay` and `RecordedBy` carry no `ensures` of their own. They are specified by the lemmas named in the rows above (`Entries` through `Append`, `AppendTotal`, `ReplayEntries` and `Ledger.Today`).
