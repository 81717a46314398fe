/**
 * The expense-entry conversation: `user_states` holds where each user is in
 * the dialogue and `expense_cache` the expense being assembled. The handlers
 * move a user from `/addexpense` through the "name, amount" message, the
 * payer button, the member buttons and the Done button, which writes the
 * expense to the ledger.
 */
module Session {
  import opened Wrappers
  import opened Lists
  import Text
  import Balances
  import Ledger

  /** The values stored in `user_states`. */
  datatype State = AwaitingExpenseDetails | AwaitingPayerSelection | AwaitingMemberSelection

  /** An `expense_cache` entry: a dictionary that always has `chat_id` and gains the other keys one by one. */
  datatype Draft = Draft(chatId: int, name: Option<string>, amount: Option<real>, payerId: Option<int>, members: Option<seq<int>>)

  function NewDraft(chatId: int): Draft {
    Draft(chatId, None, None, None, None)
  }

  /** Both dictionaries at once. */
  datatype Book = Book(states: map<int, State>, cache: map<int, Draft>)

  /**
   * What the handlers maintain: every user with a state has a draft, a
   * selected member list never repeats a user, a user asked for the payer
   * has a name and an amount, and a user selecting members has a payer and
   * a member list.
   */
  ghost predicate ValidBook(bk: Book) {
    && bk.states.Keys <= bk.cache.Keys
    && (forall u :: u in bk.cache && bk.cache[u].members.Some? ==> NoDup(bk.cache[u].members.value))
    && (forall u :: u in bk.states && bk.states[u] == AwaitingPayerSelection ==>
          bk.cache[u].name.Some? && bk.cache[u].amount.Some?)
    && (forall u :: u in bk.states && bk.states[u] == AwaitingMemberSelection ==>
          bk.cache[u].payerId.Some? && bk.cache[u].members.Some?)
  }

  // ---------------------------------------------------------------- parsing "name, amount"

  /** The two errors `handle_expense_creation` reports. */
  datatype DetailsError = WrongFieldCount | NonNumericAmount

  /** `[item.strip() for item in text.split(",")]`. */
  function Fields(text: string): (fields: seq<string>)
    ensures |fields| == Text.CountChar(text, ',') + 1
    ensures forall k :: 0 <= k < |fields| ==> fields[k] == Text.Trim(Text.Split(text, ',')[k])
  {
    var parts := Text.Split(text, ',');
    seq(|parts|, k requires 0 <= k < |parts| => Text.Trim(parts[k]))
  }

  /** No comma inside and no blank at either end: a name the parse gives back unchanged. */
  predicate PlainName(name: string) {
    ',' !in name && (name == [] || (!Text.IsSpace(name[0]) && !Text.IsSpace(name[|name| - 1])))
  }

  /**
   * The parse of `handle_expense_creation` on the stripped message text: a
   * field-count error exactly when the message does not hold exactly one
   * comma, a number error exactly when the second field is not a decimal,
   * and otherwise the first field as the name (which is then plain) and the
   * amount the second field denotes.
   */
  function ParseDetails(text: string): (r: Result<(string, real), DetailsError>)
    ensures r == Err(WrongFieldCount) <==> Text.CountChar(text, ',') != 1
    ensures var fields := Fields(Text.Trim(text));
      r == Err(NonNumericAmount) <==> |fields| == 2 && Text.ParseDecimal(fields[1]).None?
    ensures var fields := Fields(Text.Trim(text));
      r.Ok? ==> |fields| == 2 && r.value.0 == fields[0] && PlainName(r.value.0) && Text.ParseDecimal(fields[1]) == Some(r.value.1)
  {
    Text.TrimKeepsCount(text, ',');
    var details := Fields(Text.Trim(text));
    if |details| != 2 then Err(WrongFieldCount)
    else
      match Text.ParseDecimal(details[1])
      case None => Err(NonNumericAmount)
      case Some(amount) =>
        Text.TrimSubset(Text.Split(Text.Trim(text), ',')[0]);
        Ok((details[0], amount))
  }

  lemma SplitDetails(name: string, digits: string)
    requires PlainName(name) && ',' !in digits
    ensures Text.Split(name + ", " + digits, ',') == [name, " " + digits]
  {
    var tail := " " + digits;
    assert name + ", " + digits == name + [','] + tail;
    Text.SplitAfterSep(name, ',', tail);
    Text.SplitWithoutSep(name, ',');
    assert ',' !in tail;
    Text.SplitWithoutSep(tail, ',');
  }

  lemma TrimDetails(name: string, n: int)
    requires PlainName(name)
    ensures var digits := Text.IntToString(n);
      Text.Trim(name + ", " + digits) == name + ", " + digits && Text.Trim(name) == name && Text.Trim(" " + digits) == digits
  {
    var digits := Text.IntToString(n);
    var text := name + ", " + digits;
    assert text[|text| - 1] == digits[|digits| - 1];
    assert text[0] == (if name == [] then ',' else name[0]);
    Text.TrimUnchanged(text);
    Text.TrimUnchanged(name);
    assert (" " + digits)[1..] == digits;
    Text.TrimUnchanged(digits);
  }

  /** A plain name, a comma, a blank and an integer are read back as that name and amount. */
  lemma ParseDetailsRoundTrip(name: string, n: int)
    requires PlainName(name)
    ensures ParseDetails(name + ", " + Text.IntToString(n)) == Ok((name, n as real))
  {
    var digits := Text.IntToString(n);
    var text := name + ", " + digits;
    TrimDetails(name, n);
    SplitDetails(name, digits);
    var fields := Fields(text);
    assert fields[0] == name && fields[1] == digits;
    Text.IntToStringParsesAsDecimal(n);
  }

  /** The bot's own example, "Dinner, 100". */
  lemma ParseDinner()
    ensures ParseDetails("Dinner, 100") == Ok(("Dinner", 100.0))
  {
    var one := Text.NatToString(1);
    var ten := Text.NatToString(10);
    assert one == "1";
    assert ten == one + "0";
    assert Text.NatToString(100) == ten + "0";
    assert "Dinner, 100" == "Dinner" + ", " + Text.IntToString(100);
    assert PlainName("Dinner");
    ParseDetailsRoundTrip("Dinner", 100);
  }

  // ---------------------------------------------------------------- toggling a participant

  /**
   * `members.remove(x)` if `x` is selected, `members.append(x)` otherwise: a
   * selected member loses one occurrence, an unselected one joins at the end.
   */
  function Toggle(ms: seq<int>, x: int): (r: seq<int>)
    ensures x in ms ==> multiset(r) == multiset(ms) - multiset{x} && |r| == |ms| - 1
    ensures x !in ms ==> r == ms + [x]
  {
    if x in ms then RemoveFirst(ms, x) else ms + [x]
  }

  /** On a duplicate-free selection a click flips that member and no other, and keeps the list duplicate-free. */
  lemma ToggleFlips(ms: seq<int>, x: int, y: int)
    requires NoDup(ms)
    ensures NoDup(Toggle(ms, x))
    ensures x in Toggle(ms, x) <==> x !in ms
    ensures y != x ==> (y in Toggle(ms, x) <==> y in ms)
  {
    if x in ms {
      RemoveFirstNoDup(ms, x);
      var r := RemoveFirst(ms, x);
      assert multiset(r)[y] == multiset(ms)[y] - (if y == x then 1 else 0);
    } else {
      NoDupSnoc(ms, x);
    }
  }

  /**
   * Clicking the same member twice restores the selection as a multiset, and
   * restores the very same list when that member was not selected before
   * (a selected member that is clicked twice moves to the end).
   */
  lemma ToggleTwice(ms: seq<int>, x: int)
    requires NoDup(ms)
    ensures multiset(Toggle(Toggle(ms, x), x)) == multiset(ms)
    ensures x !in ms ==> Toggle(Toggle(ms, x), x) == ms
  {
    if x in ms {
      RemoveFirstNoDup(ms, x);
    } else {
      RemoveFirstLast(ms, x);
    }
  }

  // ---------------------------------------------------------------- the handlers as transitions

  /**
   * `start_add_expense`: the user awaits the details with a fresh draft for
   * the chat, whatever was there before; no other user is touched.
   */
  function Start(bk: Book, u: int, chatId: int): (r: Book)
    ensures u in r.states && r.states[u] == AwaitingExpenseDetails && u in r.cache && r.cache[u] == NewDraft(chatId)
    ensures r.states - {u} == bk.states - {u} && r.cache - {u} == bk.cache - {u}
  {
    Book(bk.states[u := AwaitingExpenseDetails], bk.cache[u := NewDraft(chatId)])
  }

  /**
   * `handle_expense_creation`: on a parse error nothing changes and the error
   * is reported; otherwise the draft gains the name and the amount, keeps
   * everything else, and the user awaits the payer. No other user is touched.
   */
  function EnterDetails(bk: Book, u: int, text: string): (r: (Book, Option<DetailsError>))
    requires u in bk.cache
    ensures r.1.None? <==> ParseDetails(text).Ok?
    ensures r.1.Some? ==> r.0 == bk && r.1.value == ParseDetails(text).error
    ensures r.1.None? ==> r.0 == Book(bk.states[u := AwaitingPayerSelection],
      bk.cache[u := bk.cache[u].(name := Some(ParseDetails(text).value.0), amount := Some(ParseDetails(text).value.1))])
  {
    match ParseDetails(text)
    case Err(e) => (bk, Some(e))
    case Ok((name, amount)) =>
      (Book(bk.states[u := AwaitingPayerSelection], bk.cache[u := bk.cache[u].(name := Some(name), amount := Some(amount))]), None)
  }

  /**
   * `handle_payer_selection`: `None` when the payload does not end in an
   * integer; otherwise creates a draft if there is none, records the payer,
   * keeps the rest of the draft and any member list already there, and asks
   * for members. No other user is touched.
   */
  function SelectPayer(bk: Book, u: int, chatId: int, data: string): (r: Option<Book>)
    ensures r.None? <==> Text.DecodeCallbackId(data).None?
    ensures r.Some? ==>
      var d := if u in bk.cache then bk.cache[u] else NewDraft(chatId);
      && u in r.value.cache
      && r.value.states == bk.states[u := AwaitingMemberSelection]
      && r.value.cache == bk.cache[u := r.value.cache[u]]
      && r.value.cache[u].payerId == Text.DecodeCallbackId(data)
      && r.value.cache[u].chatId == d.chatId && r.value.cache[u].name == d.name && r.value.cache[u].amount == d.amount
      && r.value.cache[u].members == (if d.members.Some? then d.members else Some([]))
  {
    match Text.DecodeCallbackId(data)
    case None => None
    case Some(payer) =>
      var d := if u in bk.cache then bk.cache[u] else NewDraft(chatId);
      var d' := d.(payerId := Some(payer), members := if d.members.Some? then d.members else Some([]));
      Some(Book(bk.states[u := AwaitingMemberSelection], bk.cache[u := d']))
  }

  /** The acknowledgement `add_member_to_expense` shows. */
  datatype Ack = Added | Removed

  /**
   * `add_member_to_expense`: `None` when the payload does not end in an
   * integer; otherwise makes sure there is a draft with a member list and
   * toggles the member, acknowledging `Added` exactly when it was not
   * selected. The rest of the draft, the states and every other user's draft
   * are left alone.
   */
  function ToggleMember(bk: Book, u: int, chatId: int, data: string): (r: Option<(Book, Ack)>)
    ensures r.None? <==> Text.DecodeCallbackId(data).None?
    ensures r.Some? ==>
      var m := Text.DecodeCallbackId(data).value;
      var d := if u in bk.cache then bk.cache[u] else NewDraft(chatId);
      var before := if d.members.Some? then d.members.value else [];
      && r.value.0.states == bk.states
      && r.value.0.cache == bk.cache[u := d.(members := Some(Toggle(before, m)))]
      && (r.value.1 == Added <==> m !in before)
  {
    match Text.DecodeCallbackId(data)
    case None => None
    case Some(m) =>
      var d := if u !in bk.cache then Draft(chatId, None, None, None, Some([]))
        else if bk.cache[u].members.None? then bk.cache[u].(members := Some([]))
        else bk.cache[u];
      var ms := d.members.value;
      Some((Book(bk.states, bk.cache[u := d.(members := Some(Toggle(ms, m)))]), if m in ms then Removed else Added))
  }

  /** What the Done button does with the draft. */
  datatype Outcome =
    | Committed(chatId: int, name: string, amount: real, payerId: int, members: seq<int>)
    | NotAdded      // no draft, or no member selected
    | MissingField  // `KeyError` on name, amount or payer: the handler stops before writing or clearing anything

  /**
   * What `finalize_expense` does with the draft: commit when it has a
   * non-empty member list and every field; stop at the missing field when it
   * has the list but lacks a field; otherwise nothing to add.
   */
  function Decide(d: Option<Draft>): (o: Outcome)
    ensures o.Committed? <==> (d.Some? && d.value.members.Some? && d.value.members.value != []
      && d.value.name.Some? && d.value.amount.Some? && d.value.payerId.Some?)
    ensures o.MissingField? <==> (d.Some? && d.value.members.Some? && d.value.members.value != []
      && (d.value.name.None? || d.value.amount.None? || d.value.payerId.None?))
    ensures o.Committed? ==>
      o == Committed(d.value.chatId, d.value.name.value, d.value.amount.value, d.value.payerId.value, d.value.members.value)
  {
    if d.None? || d.value.members.None? || d.value.members.value == [] then NotAdded
    else if d.value.name.None? || d.value.amount.None? || d.value.payerId.None? then MissingField
    else Committed(d.value.chatId, d.value.name.value, d.value.amount.value, d.value.payerId.value, d.value.members.value)
  }

  /** `finalize_expense`, apart from the insert itself: the user's session is cleared unless a field was missing. */
  function Finalize(bk: Book, u: int): (r: (Book, Outcome))
    ensures r.1 == Decide(if u in bk.cache then Some(bk.cache[u]) else None)
    ensures r.1.MissingField? ==> r.0 == bk
    ensures !r.1.MissingField? ==> r.0 == Book(bk.states - {u}, bk.cache - {u})
  {
    var o := Decide(if u in bk.cache then Some(bk.cache[u]) else None);
    if o.MissingField? then (bk, o) else (Book(bk.states - {u}, bk.cache - {u}), o)
  }

  // ---------------------------------------------------------------- what the transitions keep and promise

  /** Starting keeps the invariant, gives the user a fresh draft awaiting details, and touches no other user. */
  lemma StartKeepsValid(bk: Book, u: int, chatId: int)
    requires ValidBook(bk)
    ensures ValidBook(Start(bk, u, chatId))
    ensures var bk' := Start(bk, u, chatId);
      && bk'.states[u] == AwaitingExpenseDetails && bk'.cache[u] == NewDraft(chatId)
      && bk'.states - {u} == bk.states - {u} && bk'.cache - {u} == bk.cache - {u}
  {
  }

  /**
   * Entering details keeps the invariant. A message without exactly one comma
   * is a field-count error; the step succeeds exactly when the message
   * parses. On any error nothing changes; on success the draft gains the
   * parsed name and amount and the user awaits the payer, and nothing else
   * changes.
   */
  lemma EnterDetailsSteps(bk: Book, u: int, text: string)
    requires ValidBook(bk) && u in bk.states && bk.states[u] == AwaitingExpenseDetails
    ensures ValidBook(EnterDetails(bk, u, text).0)
    ensures EnterDetails(bk, u, text).1 == Some(WrongFieldCount) <==> Text.CountChar(text, ',') != 1
    ensures EnterDetails(bk, u, text).1.None? <==> ParseDetails(text).Ok?
    ensures EnterDetails(bk, u, text).1.Some? ==> EnterDetails(bk, u, text).0 == bk
    ensures ParseDetails(text).Ok? ==>
      var (name, amount) := ParseDetails(text).value;
      EnterDetails(bk, u, text).0
        == Book(bk.states[u := AwaitingPayerSelection], bk.cache[u := bk.cache[u].(name := Some(name), amount := Some(amount))])
  {
    if ParseDetails(text).Ok? {
      var (name, amount) := ParseDetails(text).value;
      var bk' := EnterDetails(bk, u, text).0;
      assert bk'.states == bk.states[u := AwaitingPayerSelection];
      assert bk'.cache == bk.cache[u := bk.cache[u].(name := Some(name), amount := Some(amount))];
    }
  }

  /**
   * Payer selection fails exactly when the payload does not end in an
   * integer. Otherwise it keeps the invariant, records the decoded payer,
   * keeps the draft's chat, name and amount and a member list already
   * selected, and touches no other user.
   */
  lemma SelectPayerSteps(bk: Book, u: int, chatId: int, data: string)
    requires ValidBook(bk)
    ensures SelectPayer(bk, u, chatId, data).None? <==> Text.DecodeCallbackId(data).None?
    ensures SelectPayer(bk, u, chatId, data).Some? ==>
      var bk' := SelectPayer(bk, u, chatId, data).value;
      && ValidBook(bk')
      && bk'.states[u] == AwaitingMemberSelection
      && bk'.cache[u].payerId == Text.DecodeCallbackId(data)
      && (u in bk.cache ==> (bk'.cache[u].chatId == bk.cache[u].chatId
            && bk'.cache[u].name == bk.cache[u].name && bk'.cache[u].amount == bk.cache[u].amount))
      && (u !in bk.cache ==> bk'.cache[u] == Draft(chatId, None, None, Text.DecodeCallbackId(data), Some([])))
      && (u in bk.cache && bk.cache[u].members.Some? ==> bk'.cache[u].members == bk.cache[u].members)
      && bk'.states - {u} == bk.states - {u} && bk'.cache - {u} == bk.cache - {u}
  {
  }

  /**
   * A member click fails exactly when the payload does not end in an
   * integer. Otherwise it keeps the invariant and the states, flips exactly
   * the clicked member, keeps the rest of the draft, and touches no other
   * user's draft.
   */
  lemma ToggleMemberSteps(bk: Book, u: int, chatId: int, data: string, y: int)
    requires ValidBook(bk)
    ensures ToggleMember(bk, u, chatId, data).None? <==> Text.DecodeCallbackId(data).None?
    ensures ToggleMember(bk, u, chatId, data).Some? ==>
      var m := Text.DecodeCallbackId(data).value;
      var (bk', ack) := ToggleMember(bk, u, chatId, data).value;
      var before := if u in bk.cache && bk.cache[u].members.Some? then bk.cache[u].members.value else [];
      && ValidBook(bk')
      && bk'.states == bk.states
      && (ack == Added <==> m in bk'.cache[u].members.value)
      && (y != m ==> (y in bk'.cache[u].members.value <==> y in before))
      && (u in bk.cache ==> (bk'.cache[u].chatId == bk.cache[u].chatId && bk'.cache[u].name == bk.cache[u].name
            && bk'.cache[u].amount == bk.cache[u].amount && bk'.cache[u].payerId == bk.cache[u].payerId))
      && bk'.cache == bk.cache[u := bk'.cache[u]]
  {
    if ToggleMember(bk, u, chatId, data).Some? {
      var m := Text.DecodeCallbackId(data).value;
      var before := if u in bk.cache && bk.cache[u].members.Some? then bk.cache[u].members.value else [];
      var d := if u in bk.cache then bk.cache[u] else NewDraft(chatId);
      var d' := d.(members := Some(Toggle(before, m)));
      assert ToggleMember(bk, u, chatId, data).value.0.cache == bk.cache[u := d'];
      ToggleFlips(before, m, y);
      ToggleKeepsValid(bk, u, chatId, data, before);
    }
  }

  lemma ToggleKeepsValid(bk: Book, u: int, chatId: int, data: string, before: seq<int>)
    requires ValidBook(bk) && ToggleMember(bk, u, chatId, data).Some?
    requires before == if u in bk.cache && bk.cache[u].members.Some? then bk.cache[u].members.value else []
    ensures ValidBook(ToggleMember(bk, u, chatId, data).value.0)
  {
    var m := Text.DecodeCallbackId(data).value;
    ToggleFlips(before, m, m);
    var bk' := ToggleMember(bk, u, chatId, data).value.0;
    forall v | v in bk'.cache && bk'.cache[v].members.Some? ensures NoDup(bk'.cache[v].members.value) {
      if v != u {
        assert bk'.cache[v] == bk.cache[v];
      }
    }
  }

  /** Writing a key twice keeps the second value. */
  lemma Overwrite<V>(m: map<int, V>, k: int, a: V, b: V)
    ensures m[k := a][k := b] == m[k := b]
  {
  }

  /**
   * Done keeps the invariant. It writes an expense exactly when there is a
   * draft with a non-empty member list and all its fields, and then carries
   * the draft's values; it stops on a missing field exactly when the draft
   * has a non-empty member list but lacks a name, an amount or a payer, and
   * then changes nothing. Otherwise the user's state and draft are both
   * removed, and no other user is touched.
   */
  lemma FinalizeSteps(bk: Book, u: int)
    requires ValidBook(bk)
    ensures ValidBook(Finalize(bk, u).0)
    ensures Finalize(bk, u).1.Committed? <==>
      u in bk.cache && bk.cache[u].members.Some? && bk.cache[u].members.value != []
        && bk.cache[u].name.Some? && bk.cache[u].amount.Some? && bk.cache[u].payerId.Some?
    ensures Finalize(bk, u).1.Committed? ==>
      var d := bk.cache[u];
      Finalize(bk, u).1 == Committed(d.chatId, d.name.value, d.amount.value, d.payerId.value, d.members.value)
        && NoDup(d.members.value)
    ensures Finalize(bk, u).1.MissingField? <==>
      u in bk.cache && bk.cache[u].members.Some? && bk.cache[u].members.value != []
        && (bk.cache[u].name.None? || bk.cache[u].amount.None? || bk.cache[u].payerId.None?)
    ensures Finalize(bk, u).1.MissingField? ==> Finalize(bk, u).0 == bk
    ensures !Finalize(bk, u).1.MissingField? ==> Finalize(bk, u).0 == Book(bk.states - {u}, bk.cache - {u})
  {
  }

  /** Clicking a selected member twice moves it to the end: the list comes back reordered. */
  lemma ToggleReorders()
    ensures Toggle(Toggle([1, 2], 1), 1) == [2, 1]
  {
    assert Position([1, 2], 1) == 0;
    assert Toggle([1, 2], 1) == [2];
  }

  lemma DialogueDetails(bk: Book, u: int, chatId: int, text: string, name: string, amount: real)
    requires ParseDetails(text) == Ok((name, amount))
    ensures EnterDetails(Start(bk, u, chatId), u, text)
      == (Book(bk.states[u := AwaitingPayerSelection], bk.cache[u := Draft(chatId, Some(name), Some(amount), None, None)]), None)
  {
    var b1 := Book(bk.states[u := AwaitingExpenseDetails], bk.cache[u := NewDraft(chatId)]);
    var d1 := Draft(chatId, Some(name), Some(amount), None, None);
    assert Start(bk, u, chatId) == b1;
    Overwrite(bk.states, u, AwaitingExpenseDetails, AwaitingPayerSelection);
    Overwrite(bk.cache, u, NewDraft(chatId), d1);
    assert EnterDetails(b1, u, text) == (Book(b1.states[u := AwaitingPayerSelection], b1.cache[u := d1]), None);
  }

  lemma DialoguePayer(bk: Book, u: int, chatId: int, d: Draft, payer: int)
    requires d.members.None?
    ensures SelectPayer(Book(bk.states[u := AwaitingPayerSelection], bk.cache[u := d]), u, chatId, Text.EncodeCallback("select_payer_", payer))
      == Some(Book(bk.states[u := AwaitingMemberSelection], bk.cache[u := d.(payerId := Some(payer), members := Some([]))]))
  {
    var data := Text.EncodeCallback("select_payer_", payer);
    Text.CallbackIdRoundTrip("select_payer_", payer);
    var d' := d.(payerId := Some(payer), members := Some([]));
    Overwrite(bk.states, u, AwaitingPayerSelection, AwaitingMemberSelection);
    Overwrite(bk.cache, u, d, d');
    var b := Book(bk.states[u := AwaitingPayerSelection], bk.cache[u := d]);
    assert SelectPayer(b, u, chatId, data) == Some(Book(b.states[u := AwaitingMemberSelection], b.cache[u := d']));
  }

  lemma DialogueMember(bk: Book, u: int, chatId: int, d: Draft, member: int)
    requires d.members == Some([])
    ensures ToggleMember(Book(bk.states[u := AwaitingMemberSelection], bk.cache[u := d]), u, chatId, Text.EncodeCallback("select_member_", member))
      == Some((Book(bk.states[u := AwaitingMemberSelection], bk.cache[u := d.(members := Some([member]))]), Added))
  {
    var data := Text.EncodeCallback("select_member_", member);
    Text.CallbackIdRoundTrip("select_member_", member);
    var d' := d.(members := Some([member]));
    Overwrite(bk.cache, u, d, d');
    assert Toggle([], member) == [member];
    var b := Book(bk.states[u := AwaitingMemberSelection], bk.cache[u := d]);
    assert ToggleMember(b, u, chatId, data) == Some((Book(b.states, b.cache[u := d']), Added));
  }

  lemma DialogueDone(bk: Book, u: int, chatId: int, name: string, amount: real, payer: int, member: int)
    ensures Finalize(Book(bk.states[u := AwaitingMemberSelection], bk.cache[u := Draft(chatId, Some(name), Some(amount), Some(payer), Some([member]))]), u)
      == (Book(bk.states - {u}, bk.cache - {u}), Committed(chatId, name, amount, payer, [member]))
  {
    var b := Book(bk.states[u := AwaitingMemberSelection], bk.cache[u := Draft(chatId, Some(name), Some(amount), Some(payer), Some([member]))]);
    assert b.states - {u} == bk.states - {u};
    assert b.cache - {u} == bk.cache - {u};
  }

  /**
   * The whole dialogue: `/addexpense`, any message the parse accepts, the
   * payer button, one member button and Done commit the name and amount that
   * message holds, split over that one member, and leave no session behind.
   */
  lemma DialogueCommitsParsed(bk: Book, u: int, chatId: int, text: string, payer: int, member: int)
    requires ParseDetails(text).Ok?
    ensures var b2 := EnterDetails(Start(bk, u, chatId), u, text).0;
      var b3 := SelectPayer(b2, u, chatId, Text.EncodeCallback("select_payer_", payer));
      b3.Some? &&
      var b4 := ToggleMember(b3.value, u, chatId, Text.EncodeCallback("select_member_", member));
      b4.Some? && b4.value.1 == Added &&
      var fields := Fields(Text.Trim(text));
      Finalize(b4.value.0, u)
        == (Book(bk.states - {u}, bk.cache - {u}), Committed(chatId, fields[0], Text.ParseDecimal(fields[1]).value, payer, [member]))
  {
    var (name, amount) := ParseDetails(text).value;
    var d2 := Draft(chatId, Some(name), Some(amount), None, None);
    DialogueDetails(bk, u, chatId, text, name, amount);
    DialoguePayer(bk, u, chatId, d2, payer);
    var d3 := d2.(payerId := Some(payer), members := Some([]));
    DialogueMember(bk, u, chatId, d3, member);
    DialogueDone(bk, u, chatId, name, amount, payer, member);
  }

  /** In particular, "name, n" with a plain name commits that name and the amount n. */
  lemma AddExpenseDialogue(bk: Book, u: int, chatId: int, name: string, n: int, payer: int, member: int)
    requires PlainName(name)
    ensures var b2 := EnterDetails(Start(bk, u, chatId), u, name + ", " + Text.IntToString(n)).0;
      var b3 := SelectPayer(b2, u, chatId, Text.EncodeCallback("select_payer_", payer));
      b3.Some? &&
      var b4 := ToggleMember(b3.value, u, chatId, Text.EncodeCallback("select_member_", member));
      b4.Some? && b4.value.1 == Added &&
      Finalize(b4.value.0, u) == (Book(bk.states - {u}, bk.cache - {u}), Committed(chatId, name, n as real, payer, [member]))
  {
    ParseDetailsRoundTrip(name, n);
    DialogueCommitsParsed(bk, u, chatId, name + ", " + Text.IntToString(n), payer, member);
  }

  // ---------------------------------------------------------------- the two dictionaries

  class Sessions {
    /** `user_states`. */
    var userStates: map<int, State>
    /** `expense_cache`. */
    var expenseCache: map<int, Draft>

    ghost predicate Valid()
      reads this
    {
      ValidBook(Book(userStates, expenseCache))
    }

    constructor ()
      ensures Valid() && userStates == map[] && expenseCache == map[]
    {
      userStates, expenseCache := map[], map[];
    }

    method StartAddExpense(userId: int, chatId: int)
      requires Valid()
      modifies this
      ensures Valid()
      ensures Book(userStates, expenseCache) == Start(old(Book(userStates, expenseCache)), userId, chatId)
    {
      ghost var before := Book(userStates, expenseCache);
      userStates := userStates[userId := AwaitingExpenseDetails];
      expenseCache := expenseCache[userId := NewDraft(chatId)];
      StartKeepsValid(before, userId, chatId);
    }

    /** Runs only for a user awaiting expense details, which is what the handler's filter admits. */
    method HandleExpenseCreation(userId: int, text: string) returns (error: Option<DetailsError>)
      requires Valid() && userId in userStates && userStates[userId] == AwaitingExpenseDetails
      modifies this
      ensures Valid()
      ensures (Book(userStates, expenseCache), error) == EnterDetails(old(Book(userStates, expenseCache)), userId, text)
    {
      ghost var before := Book(userStates, expenseCache);
      EnterDetailsSteps(before, userId, text);
      var details := ParseDetails(text);
      if details.Err? {
        return Some(details.error);
      }
      var (name, amount) := details.value;
      expenseCache := expenseCache[userId := expenseCache[userId].(name := Some(name), amount := Some(amount))];
      userStates := userStates[userId := AwaitingPayerSelection];
      error := None;
    }

    /** `None` when the payload's last piece is not an integer, in which case nothing changes. */
    method HandlePayerSelection(userId: int, chatId: int, data: string) returns (payer: Option<int>)
      requires Valid()
      modifies this
      ensures Valid()
      ensures payer == Text.DecodeCallbackId(data)
      ensures payer.None? ==> userStates == old(userStates) && expenseCache == old(expenseCache)
      ensures payer.Some? ==> Some(Book(userStates, expenseCache)) == SelectPayer(old(Book(userStates, expenseCache)), userId, chatId, data)
    {
      ghost var before := Book(userStates, expenseCache);
      SelectPayerSteps(before, userId, chatId, data);
      payer := Text.DecodeCallbackId(data);
      if payer.None? {
        return;
      }
      var draft := if userId in expenseCache then expenseCache[userId] else NewDraft(chatId);
      draft := draft.(payerId := payer);
      if draft.members.None? {
        draft := draft.(members := Some([]));
      }
      expenseCache := expenseCache[userId := draft];
      userStates := userStates[userId := AwaitingMemberSelection];
    }

    /** `None` when the payload's last piece is not an integer, in which case nothing changes. */
    method AddMemberToExpense(userId: int, chatId: int, data: string) returns (ack: Option<Ack>)
      requires Valid()
      modifies this
      ensures Valid()
      ensures ack.None? <==> Text.DecodeCallbackId(data).None?
      ensures ack.None? ==> userStates == old(userStates) && expenseCache == old(expenseCache)
      ensures ack.Some? ==> Some((Book(userStates, expenseCache), ack.value)) == ToggleMember(old(Book(userStates, expenseCache)), userId, chatId, data)
    {
      ghost var before := Book(userStates, expenseCache);
      ToggleMemberSteps(before, userId, chatId, data, 0);
      var decoded := Text.DecodeCallbackId(data);
      if decoded.None? {
        return None;
      }
      var m := decoded.value;
      var draft: Draft;
      if userId !in expenseCache {
        draft := Draft(chatId, None, None, None, Some([]));
      } else if expenseCache[userId].members.None? {
        draft := expenseCache[userId].(members := Some([]));
      } else {
        draft := expenseCache[userId];
      }
      var members := draft.members.value;
      if m in members {
        members := RemoveFirst(members, m);
        ack := Some(Removed);
      } else {
        members := members + [m];
        ack := Some(Added);
      }
      expenseCache := expenseCache[userId := draft.(members := Some(members))];
    }

    /**
     * `finalize_expense`: commits the draft to the ledger under the next id,
     * with one link per selected member, and clears the session; clears the
     * session without writing when there is nothing to commit; and changes
     * nothing when a field is missing.
     */
    method FinalizeExpense(userId: int, store: Ledger.Store, date: string) returns (outcome: Outcome, expenseId: Option<int>)
      requires Valid() && store.Valid()
      modifies this, store
      ensures Valid() && store.Valid()
      ensures (Book(userStates, expenseCache), outcome) == Finalize(old(Book(userStates, expenseCache)), userId)
      ensures outcome.Committed? ==> expenseId == Some(old(store.nextId)) && store.nextId == old(store.nextId) + 1
      ensures outcome.Committed? ==> (store.expenses
        == old(store.expenses) + [Ledger.ExpenseRow(old(store.nextId), outcome.chatId, outcome.name, outcome.amount, outcome.payerId, date)])
      ensures outcome.Committed? ==> store.links == old(store.links) + Ledger.LinksFor(old(store.nextId), outcome.members)
      ensures outcome.Committed? ==> (Ledger.ChargesIn(store.expenses, store.links, outcome.chatId)
        == Ledger.ChargesIn(old(store.expenses), old(store.links), outcome.chatId) + [Balances.Charge(outcome.amount, outcome.payerId, outcome.members)])
      ensures !outcome.Committed? ==> (expenseId.None? && store.expenses == old(store.expenses)
        && store.links == old(store.links) && store.nextId == old(store.nextId))
      ensures store.groups == old(store.groups) && store.members == old(store.members)
    {
      ghost var before := Book(userStates, expenseCache);
      FinalizeSteps(before, userId);
      outcome := Decide(if userId in expenseCache then Some(expenseCache[userId]) else None);
      expenseId := None;
      if outcome.MissingField? {
        return;
      }
      if outcome.Committed? {
        ghost var expenses, links := store.expenses, store.links;
        var id := store.InsertExpense(outcome.chatId, outcome.name, outcome.amount, outcome.payerId, date, outcome.members);
        Ledger.InsertAddsCharge(expenses, links, Ledger.ExpenseRow(id, outcome.chatId, outcome.name, outcome.amount, outcome.payerId, date), outcome.members, outcome.chatId);
        expenseId := Some(id);
      }
      userStates := userStates - {userId};
      expenseCache := expenseCache - {userId};
    }
  }
}
