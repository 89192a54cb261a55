/** The bot's in-memory spending ledger: a dictionary from user id to the
    list of amounts that user has logged, in the order they were logged.
 */
module SpendingLedger {
  import opened AmountParser

  /** A chat user id. */
  type UserId = int

  /** What a message is answered with: the amount recorded, or the request
      to send a clearer amount. */
  datatype Reply = Recorded(amount: nat) | Rejected

  /** One incoming text message. */
  datatype Message = Message(user: UserId, text: string)

  /** `sum(xs)`. */
  function Sum(xs: seq<nat>): nat {
    if xs == [] then 0 else xs[0] + Sum(xs[1..])
  }

  /** `d.get(user, [])`. */
  function Entries(d: map<UserId, seq<nat>>, user: UserId): seq<nat> {
    if user in d then d[user] else []
  }

  /** `sum(d.get(user, []))`. */
  function Total(d: map<UserId, seq<nat>>, user: UserId): nat {
    Sum(Entries(d, user))
  }

  /** Every amount the ledger holds is positive. */
  predicate AllPositive(d: map<UserId, seq<nat>>) {
    forall u, i :: u in d && 0 <= i < |d[u]| ==> d[u][i] > 0
  }

  /** Python truthiness of the parsed amount: `None` and `0` are false. */
  predicate Truthy(amount: Option<nat>) {
    amount.Some? && amount.value != 0
  }

  /** The amount a message would record, if any. */
  function AmountToRecord(text: string): (r: Option<nat>)
    ensures r.Some? <==> Truthy(ParseAmount(text))
    ensures r.Some? ==> r.value > 0 && ParseAmount(text) == Some(r.value)
  {
    var amount := ParseAmount(text);
    if Truthy(amount) then amount else None
  }

  /** `d.setdefault(user, []).append(amount)` on a dictionary value. */
  function Append(d: map<UserId, seq<nat>>, user: UserId, amount: nat): (d': map<UserId, seq<nat>>)
    ensures d'.Keys == d.Keys + {user}
    ensures Entries(d', user) == Entries(d, user) + [amount]
    ensures forall v :: v != user ==> Entries(d', v) == Entries(d, v)
  {
    d[user := Entries(d, user) + [amount]]
  }

  /** The dictionary after the bot handles one message. */
  function Step(d: map<UserId, seq<nat>>, m: Message): map<UserId, seq<nat>> {
    match AmountToRecord(m.text)
    case Some(a) => Append(d, m.user, a)
    case None => d
  }

  /** The dictionary after the bot handles the messages in order. */
  function Replay(d: map<UserId, seq<nat>>, ms: seq<Message>): map<UserId, seq<nat>>
    decreases |ms|
  {
    if ms == [] then d else Replay(Step(d, ms[0]), ms[1..])
  }

  /** Reference: the amounts `user`'s messages record, in order. */
  function RecordedBy(ms: seq<Message>, user: UserId): seq<nat>
    decreases |ms|
  {
    if ms == [] then []
    else
      var here := match AmountToRecord(ms[0].text)
                  case Some(a) => if ms[0].user == user then [a] else []
                  case None => [];
      here + RecordedBy(ms[1..], user)
  }

  // ---------------------------------------------------------------------
  // Totals

  lemma {:induction false} SumAppend(xs: seq<nat>, a: nat)
    ensures Sum(xs + [a]) == Sum(xs) + a
  {
    if xs != [] {
      assert (xs + [a])[1..] == xs[1..] + [a];
      SumAppend(xs[1..], a);
    }
  }

  lemma {:induction false} SumConcat(xs: seq<nat>, ys: seq<nat>)
    ensures Sum(xs + ys) == Sum(xs) + Sum(ys)
  {
    if xs == [] {
      assert xs + ys == ys;
    } else {
      assert (xs + ys)[1..] == xs[1..] + ys;
      SumConcat(xs[1..], ys);
    }
  }

  /** Appending `amount` for `user` raises that user's total by exactly
      `amount` and leaves every other total as it was. */
  lemma AppendTotal(d: map<UserId, seq<nat>>, user: UserId, amount: nat, v: UserId)
    ensures Total(Append(d, user, amount), v) == Total(d, v) + (if v == user then amount else 0)
  {
    if v == user {
      SumAppend(Entries(d, user), amount);
    }
  }

  /** Handling a message keeps every stored amount positive. */
  lemma StepKeepsPositive(d: map<UserId, seq<nat>>, m: Message)
    requires AllPositive(d)
    ensures AllPositive(Step(d, m))
  {
  }

  /** After any stream of messages, each user's list is what it was followed
      by exactly the amounts that user's messages recorded, in order. */
  lemma {:induction false} ReplayEntries(d: map<UserId, seq<nat>>, ms: seq<Message>, user: UserId)
    ensures Entries(Replay(d, ms), user) == Entries(d, user) + RecordedBy(ms, user)
    decreases |ms|
  {
    if ms == [] {
      assert Entries(d, user) + [] == Entries(d, user);
    } else {
      ReplayEntries(Step(d, ms[0]), ms[1..], user);
    }
  }

  /** After any stream of messages, `today` for a user has grown by the sum
      of the amounts that user's messages recorded; from the empty
      dictionary it is that sum. */
  lemma ReplayTotal(d: map<UserId, seq<nat>>, ms: seq<Message>, user: UserId)
    ensures Total(Replay(d, ms), user) == Total(d, user) + Sum(RecordedBy(ms, user))
    ensures Total(Replay(map[], ms), user) == Sum(RecordedBy(ms, user))
  {
    ReplayEntries(d, ms, user);
    SumConcat(Entries(d, user), RecordedBy(ms, user));
    ReplayEntries(map[], ms, user);
    assert Entries(map[], user) + RecordedBy(ms, user) == RecordedBy(ms, user);
  }

  /** The global `daily_spending` dictionary and the two handlers that use it. */
  class Ledger {
    var spending: map<UserId, seq<nat>>

    ghost predicate Valid()
      reads this
    {
      AllPositive(spending)
    }

    /** `daily_spending = {}`. */
    constructor ()
      ensures Valid() && spending == map[]
    {
      spending := map[];
    }

    /** The `today` handler: the user's total, 0 when they logged nothing. */
    function Today(user: UserId): (total: nat)
      reads this
      ensures user !in spending ==> total == 0
      ensures Valid() ==> (total == 0 <==> Entries(spending, user) == [])
    {
      Total(spending, user)
    }

    /** The `log_spending` handler: records the first all-digit word of
        `text` for `user` when its value is not 0, and otherwise rejects
        the message and leaves the ledger as it was. */
    method LogSpending(user: UserId, text: string) returns (reply: Reply)
      requires Valid()
      modifies this
      ensures Valid()
      ensures reply.Recorded? <==> Truthy(ParseAmount(text))
      ensures reply.Recorded? ==> reply.amount > 0 && ParseAmount(text) == Some(reply.amount)
      ensures spending == Step(old(spending), Message(user, text))
      ensures reply.Recorded? ==> Entries(spending, user) == Entries(old(spending), user) + [reply.amount]
      ensures reply.Rejected? ==> spending == old(spending)
      ensures forall v :: v != user ==> Entries(spending, v) == Entries(old(spending), v)
      ensures Today(user) == old(Today(user)) + (if reply.Recorded? then reply.amount else 0)
      ensures forall v :: v != user ==> Today(v) == old(Today(v))
    {
      StepKeepsPositive(spending, Message(user, text));
      var amount := ParseAmount(text);
      if Truthy(amount) {
        ghost var before := spending;
        var entries := if user in spending then spending[user] else [];
        spending := spending[user := entries + [amount.value]];
        assert spending == Append(before, user, amount.value);
        forall v { AppendTotal(before, user, amount.value, v); }
        reply := Recorded(amount.value);
      } else {
        reply := Rejected;
      }
    }
  }
}
