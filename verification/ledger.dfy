/**
 * The bot's SQLite tables as an in-memory store: `groups` keyed by chat id,
 * `members` keyed by (user id, chat id), `expenses` with an AUTOINCREMENT id,
 * and `expense_members` linking an expense to its participants, keyed by
 * (expense id, member id). The operations are the ones the handlers perform
 * on it: registering a group and a member, inserting an expense with its
 * links, deleting an expense with its links, and reading the balances.
 */
module Ledger {
  import opened Wrappers
  import opened Lists
  import Text
  import Balances
  import Settlement

  /** `message.chat.type`. */
  datatype ChatKind = Private | Group | Supergroup | Channel

  /** `chat.type in ['group', 'supergroup']`. */
  predicate IsGroupChat(kind: ChatKind) {
    kind == Group || kind == Supergroup
  }

  /** A row of `members`. */
  datatype MemberRow = MemberRow(userId: int, chatId: int, username: string)

  /** A row of `expenses`. */
  datatype ExpenseRow = ExpenseRow(id: int, chatId: int, name: string, amount: real, payerId: int, date: string)

  /** A row of `expense_members`. */
  datatype LinkRow = LinkRow(expenseId: int, memberId: int)

  // ---------------------------------------------------------------- groups

  /** Registers the chat under `title` when it is a group and has no row yet; an existing row is kept. */
  function Register(groups: map<int, string>, chatId: int, kind: ChatKind, title: string): (r: map<int, string>)
    ensures r.Keys == groups.Keys + (if IsGroupChat(kind) then {chatId} else {})
    ensures forall c :: c in groups ==> r[c] == groups[c]
    ensures IsGroupChat(kind) && chatId !in groups ==> r[chatId] == title
  {
    if IsGroupChat(kind) && chatId !in groups then groups[chatId := title] else groups
  }

  /** Registering again changes nothing: `/start` may be sent any number of times. */
  lemma RegisterIdempotent(groups: map<int, string>, chatId: int, kind: ChatKind, title: string, title': string)
    ensures Register(Register(groups, chatId, kind, title), chatId, kind, title') == Register(groups, chatId, kind, title)
  {
  }

  // ---------------------------------------------------------------- members

  /** `(user_id, chat_id)` is the primary key of `members`. */
  predicate UniqueMembers(members: seq<MemberRow>) {
    forall i, j :: 0 <= i < j < |members| ==>
      members[i].userId != members[j].userId || members[i].chatId != members[j].chatId
  }

  predicate HasMember(members: seq<MemberRow>, chatId: int, userId: int) {
    exists i :: 0 <= i < |members| && members[i].userId == userId && members[i].chatId == chatId
  }

  /**
   * `user.username or user.first_name`: a non-empty user name is preferred,
   * and the result is empty only when both are.
   */
  function DisplayName(username: Option<string>, firstName: string): (name: string)
    ensures username.Some? && username.value != [] ==> name == username.value
    ensures name == [] <==> (username.None? || username.value == []) && firstName == []
  {
    if username.Some? && username.value != "" then username.value else firstName
  }

  /** The insert of `add_member_to_group`, performed only when the user has no row in this chat. */
  function Join(members: seq<MemberRow>, chatId: int, userId: int, name: string): (r: seq<MemberRow>)
    ensures HasMember(r, chatId, userId)
    ensures HasMember(members, chatId, userId) ==> r == members
    ensures !HasMember(members, chatId, userId) ==> r == members + [MemberRow(userId, chatId, name)]
  {
    if HasMember(members, chatId, userId) then members
    else
      var r := members + [MemberRow(userId, chatId, name)];
      assert r[|members|].userId == userId && r[|members|].chatId == chatId;
      r
  }

  /** Joining keeps the primary key unique, and joining twice is the same as joining once. */
  lemma JoinUnique(members: seq<MemberRow>, chatId: int, userId: int, name: string, name': string)
    requires UniqueMembers(members)
    ensures UniqueMembers(Join(members, chatId, userId, name))
    ensures Join(Join(members, chatId, userId, name), chatId, userId, name') == Join(members, chatId, userId, name)
  {
  }

  /** `SELECT user_id ... FROM members WHERE chat_id = ?`, in row order: at most one id per row, and every row of the chat is listed. */
  function MemberIdsIn(members: seq<MemberRow>, chatId: int): (ids: seq<int>)
    ensures |ids| <= |members|
    ensures forall m :: m in members && m.chatId == chatId ==> m.userId in ids
  {
    if members == [] then []
    else (if members[0].chatId == chatId then [members[0].userId] else []) + MemberIdsIn(members[1..], chatId)
  }

  lemma {:induction false} MemberIdsInMembers(members: seq<MemberRow>, chatId: int, u: int)
    ensures u in MemberIdsIn(members, chatId) <==> HasMember(members, chatId, u)
  {
    if members != [] {
      MemberIdsInMembers(members[1..], chatId, u);
      if HasMember(members[1..], chatId, u) {
        var i :| 0 <= i < |members| - 1 && members[1..][i].userId == u && members[1..][i].chatId == chatId;
        assert members[i + 1] == members[1..][i];
      }
      if HasMember(members, chatId, u) && (members[0].userId != u || members[0].chatId != chatId) {
        var i :| 0 <= i < |members| && members[i].userId == u && members[i].chatId == chatId;
        assert members[1..][i - 1] == members[i];
      }
    }
  }

  /** With a unique primary key, no user is listed twice for one chat. */
  lemma {:induction false} MemberIdsInNoDup(members: seq<MemberRow>, chatId: int)
    requires UniqueMembers(members)
    ensures NoDup(MemberIdsIn(members, chatId))
  {
    if members != [] {
      var rest := members[1..];
      assert UniqueMembers(rest) by {
        assert forall i :: 0 <= i < |rest| ==> rest[i] == members[i + 1];
      }
      MemberIdsInNoDup(rest, chatId);
      if members[0].chatId == chatId {
        var u := members[0].userId;
        MemberIdsInMembers(rest, chatId, u);
        assert !HasMember(rest, chatId, u);
        NoDupCons(u, MemberIdsIn(rest, chatId));
      }
    }
  }

  // ---------------------------------------------------------------- expenses and their links

  /** `INSERT INTO expense_members (expense_id, member_id)` for every participant. */
  function LinksFor(id: int, participants: seq<int>): (r: seq<LinkRow>)
    ensures |r| == |participants|
    ensures forall k :: 0 <= k < |r| ==> r[k] == LinkRow(id, participants[k])
  {
    if participants == [] then [] else [LinkRow(id, participants[0])] + LinksFor(id, participants[1..])
  }

  /**
   * `SELECT member_id FROM expense_members WHERE expense_id = ?`, in row
   * order: every member linked to the expense, and only those.
   */
  function ParticipantsIn(links: seq<LinkRow>, id: int): (ms: seq<int>)
    ensures |ms| <= |links|
    ensures forall m :: m in ms <==> LinkRow(id, m) in links
  {
    if links == [] then []
    else (if links[0].expenseId == id then [links[0].memberId] else []) + ParticipantsIn(links[1..], id)
  }

  lemma {:induction false} ParticipantsInAppend(a: seq<LinkRow>, b: seq<LinkRow>, id: int)
    ensures ParticipantsIn(a + b, id) == ParticipantsIn(a, id) + ParticipantsIn(b, id)
  {
    if a == [] {
      assert a + b == b;
    } else {
      var t := a[1..];
      ParticipantsInAppend(t, b, id);
      var head := if a[0].expenseId == id then [a[0].memberId] else [];
      assert (a + b)[0] == a[0] && (a + b)[1..] == t + b;
      assert ParticipantsIn(a + b, id) == head + (ParticipantsIn(t, id) + ParticipantsIn(b, id));
      assert ParticipantsIn(a, id) == head + ParticipantsIn(t, id);
      SeqAssoc(head, ParticipantsIn(t, id), ParticipantsIn(b, id));
    }
  }

  lemma SeqAssoc<T>(x: seq<T>, y: seq<T>, z: seq<T>)
    ensures x + (y + z) == (x + y) + z
  {
  }

  lemma {:induction false} ParticipantsInAbsent(links: seq<LinkRow>, id: int)
    requires forall k :: 0 <= k < |links| ==> links[k].expenseId != id
    ensures ParticipantsIn(links, id) == []
  {
    if links != [] {
      ParticipantsInAbsent(links[1..], id);
    }
  }

  /**
   * Writing one link per participant under a fresh id: reading that id's
   * participants back gives the list exactly, and every other expense keeps
   * its participants.
   */
  lemma {:induction false} LinksRoundTrip(links: seq<LinkRow>, id: int, participants: seq<int>, other: int)
    requires forall k :: 0 <= k < |links| ==> links[k].expenseId != id
    ensures ParticipantsIn(links + LinksFor(id, participants), id) == participants
    ensures other != id ==> ParticipantsIn(links + LinksFor(id, participants), other) == ParticipantsIn(links, other)
  {
    ParticipantsInAppend(links, LinksFor(id, participants), id);
    ParticipantsInAppend(links, LinksFor(id, participants), other);
    ParticipantsInAbsent(links, id);
    LinksForRead(id, participants);
    if other != id {
      LinksForOther(id, participants, other);
    }
  }

  lemma {:induction false} LinksForRead(id: int, participants: seq<int>)
    ensures ParticipantsIn(LinksFor(id, participants), id) == participants
  {
    if participants != [] {
      LinksForRead(id, participants[1..]);
      assert LinksFor(id, participants)[1..] == LinksFor(id, participants[1..]);
      assert participants == [participants[0]] + participants[1..];
    }
  }

  lemma {:induction false} LinksForOther(id: int, participants: seq<int>, other: int)
    requires other != id
    ensures ParticipantsIn(LinksFor(id, participants), other) == []
  {
    if participants != [] {
      LinksForOther(id, participants[1..], other);
      assert LinksFor(id, participants)[1..] == LinksFor(id, participants[1..]);
    }
  }

  /**
   * The charges the balance engine reads for a chat: its expenses, in row
   * order, with their participants; a chat without expenses has none.
   */
  function ChargesIn(expenses: seq<ExpenseRow>, links: seq<LinkRow>, chatId: int): (cs: seq<Balances.Charge>)
    ensures |cs| <= |expenses|
    ensures (forall k :: 0 <= k < |expenses| ==> expenses[k].chatId != chatId) ==> cs == []
  {
    if expenses == [] then []
    else
      var e := expenses[|expenses| - 1];
      ChargesIn(expenses[..|expenses| - 1], links, chatId)
        + (if e.chatId == chatId then [Balances.Charge(e.amount, e.payerId, ParticipantsIn(links, e.id))] else [])
  }

  lemma {:induction false} ChargesInLinks(expenses: seq<ExpenseRow>, links: seq<LinkRow>, links': seq<LinkRow>, chatId: int)
    requires forall k :: 0 <= k < |expenses| ==> ParticipantsIn(links', expenses[k].id) == ParticipantsIn(links, expenses[k].id)
    ensures ChargesIn(expenses, links', chatId) == ChargesIn(expenses, links, chatId)
  {
    if expenses != [] {
      var init := expenses[..|expenses| - 1];
      assert forall k :: 0 <= k < |init| ==> init[k] == expenses[k];
      ChargesInLinks(init, links, links', chatId);
    }
  }

  /**
   * Inserting an expense under a fresh id adds exactly one charge to its chat,
   * with the participants as given, and leaves every other chat's charges as
   * they were.
   */
  lemma InsertAddsCharge(expenses: seq<ExpenseRow>, links: seq<LinkRow>, e: ExpenseRow, participants: seq<int>, chatId: int)
    requires forall k :: 0 <= k < |expenses| ==> expenses[k].id != e.id
    requires forall k :: 0 <= k < |links| ==> links[k].expenseId != e.id
    ensures ChargesIn(expenses + [e], links + LinksFor(e.id, participants), chatId)
      == ChargesIn(expenses, links, chatId)
        + (if e.chatId == chatId then [Balances.Charge(e.amount, e.payerId, participants)] else [])
  {
    var links' := links + LinksFor(e.id, participants);
    assert (expenses + [e])[..|expenses|] == expenses;
    forall k | 0 <= k < |expenses| ensures ParticipantsIn(links', expenses[k].id) == ParticipantsIn(links, expenses[k].id) {
      LinksRoundTrip(links, e.id, participants, expenses[k].id);
    }
    ChargesInLinks(expenses, links, links', chatId);
    LinksRoundTrip(links, e.id, participants, e.id);
  }

  /** `DELETE FROM expenses WHERE id = ?`: no row with that id is left. */
  function WithoutExpense(expenses: seq<ExpenseRow>, id: int): (r: seq<ExpenseRow>)
    ensures |r| <= |expenses|
    ensures forall k :: 0 <= k < |r| ==> r[k].id != id
  {
    if expenses == [] then []
    else (if expenses[0].id == id then [] else [expenses[0]]) + WithoutExpense(expenses[1..], id)
  }

  /** `DELETE FROM expense_members WHERE expense_id = ?`: no link of that expense is left. */
  function WithoutLinks(links: seq<LinkRow>, id: int): (r: seq<LinkRow>)
    ensures |r| <= |links|
    ensures forall k :: 0 <= k < |r| ==> r[k].expenseId != id
  {
    if links == [] then []
    else (if links[0].expenseId == id then [] else [links[0]]) + WithoutLinks(links[1..], id)
  }

  /**
   * Deleting removes that expense and nothing else: a row survives exactly
   * when it is a row of another expense.
   */
  lemma {:induction false} WithoutExpenseExactly(expenses: seq<ExpenseRow>, id: int, row: ExpenseRow)
    ensures row in WithoutExpense(expenses, id) <==> row in expenses && row.id != id
    ensures |WithoutExpense(expenses, id)| <= |expenses|
    ensures (forall k :: 0 <= k < |expenses| ==> expenses[k].id != id) ==> WithoutExpense(expenses, id) == expenses
  {
    if expenses != [] {
      WithoutExpenseExactly(expenses[1..], id, row);
      assert expenses == [expenses[0]] + expenses[1..];
    }
  }

  /** Deleting removes every link of that expense and nothing else. */
  lemma {:induction false} WithoutLinksExactly(links: seq<LinkRow>, id: int, row: LinkRow)
    ensures row in WithoutLinks(links, id) <==> row in links && row.expenseId != id
    ensures (forall k :: 0 <= k < |links| ==> links[k].expenseId != id) ==> WithoutLinks(links, id) == links
  {
    if links != [] {
      WithoutLinksExactly(links[1..], id, row);
      assert links == [links[0]] + links[1..];
    }
  }

  // ---------------------------------------------------------------- the store

  class Store {
    var groups: map<int, string>
    var members: seq<MemberRow>
    var expenses: seq<ExpenseRow>
    var links: seq<LinkRow>
    /** The next AUTOINCREMENT value: larger than every id ever handed out. */
    var nextId: int

    /** The table constraints, and the AUTOINCREMENT counter above every stored id. */
    ghost predicate Valid()
      reads this
    {
      && UniqueMembers(members)
      && 1 <= nextId
      && IdsBelow(expenses, nextId)
      && UniqueExpenseIds(expenses)
      && LinksBelow(links, nextId)
      && NoDup(links)
    }

    /** Empty tables. */
    constructor ()
      ensures Valid()
      ensures groups == map[] && members == [] && expenses == [] && links == [] && nextId == 1
    {
      groups, members, expenses, links, nextId := map[], [], [], [], 1;
    }

    /** The store part of `send_welcome`. */
    method SendWelcome(chatId: int, kind: ChatKind, title: string)
      requires Valid()
      modifies this
      ensures Valid()
      ensures groups == Register(old(groups), chatId, kind, title)
      ensures members == old(members) && expenses == old(expenses) && links == old(links) && nextId == old(nextId)
    {
      if IsGroupChat(kind) {
        if chatId !in groups {
          groups := groups[chatId := title];
        }
      }
    }

    /** `add_member_to_group`: registers the sender in the chat unless already there. */
    method AddMemberToGroup(chatId: int, userId: int, username: Option<string>, firstName: string)
      requires Valid()
      modifies this
      ensures Valid()
      ensures members == Join(old(members), chatId, userId, DisplayName(username, firstName))
      ensures groups == old(groups) && expenses == old(expenses) && links == old(links) && nextId == old(nextId)
    {
      var name := DisplayName(username, firstName);
      var found := false;
      var k := 0;
      while k < |members| && !found
        invariant 0 <= k <= |members|
        invariant found <==> exists i :: 0 <= i < k && members[i].userId == userId && members[i].chatId == chatId
      {
        found := members[k].userId == userId && members[k].chatId == chatId;
        k := k + 1;
      }
      assert !found ==> k == |members|;
      if !found {
        JoinUnique(members, chatId, userId, name, name);
        members := members + [MemberRow(userId, chatId, name)];
      }
    }

    /**
     * The inserts of `finalize_expense`: the expense row under the next
     * AUTOINCREMENT id (`cursor.lastrowid`), then one link per participant.
     */
    method InsertExpense(chatId: int, name: string, amount: real, payerId: int, date: string, participants: seq<int>)
      returns (id: int)
      requires Valid() && NoDup(participants)
      modifies this
      ensures Valid()
      ensures id == old(nextId) && nextId == id + 1
      ensures expenses == old(expenses) + [ExpenseRow(id, chatId, name, amount, payerId, date)]
      ensures links == old(links) + LinksFor(id, participants)
      ensures groups == old(groups) && members == old(members)
    {
      id := nextId;
      expenses := expenses + [ExpenseRow(id, chatId, name, amount, payerId, date)];
      var k := 0;
      while k < |participants|
        invariant 0 <= k <= |participants|
        invariant links == old(links) + LinksFor(id, participants[..k])
        invariant expenses == old(expenses) + [ExpenseRow(id, chatId, name, amount, payerId, date)]
        invariant groups == old(groups) && members == old(members) && nextId == id
      {
        LinksForSnoc(id, participants, k);
        links := links + [LinkRow(id, participants[k])];
        k := k + 1;
      }
      assert participants[..k] == participants;
      nextId := nextId + 1;
      LinksUnique(old(links), id, participants);
    }

    /**
     * `delete_expense`: decodes the id from the button payload and deletes the
     * expense row and its links. A payload whose last piece is not an integer
     * raises before anything is deleted (`None`); a missing id deletes nothing
     * and is still reported as deleted.
     */
    method DeleteExpense(data: string) returns (decoded: Option<int>)
      requires Valid()
      modifies this
      ensures Valid()
      ensures decoded == Text.DecodeCallbackId(data)
      ensures decoded.None? ==> expenses == old(expenses) && links == old(links)
      ensures decoded.Some? ==> expenses == WithoutExpense(old(expenses), decoded.value)
      ensures decoded.Some? ==> links == WithoutLinks(old(links), decoded.value)
      ensures groups == old(groups) && members == old(members) && nextId == old(nextId)
    {
      decoded := Text.DecodeCallbackId(data);
      if decoded.Some? {
        var id := decoded.value;
        WithoutExpenseValid(expenses, id, nextId);
        WithoutLinksValid(links, id, nextId);
        expenses := WithoutExpense(expenses, id);
        links := WithoutLinks(links, id);
      }
    }

    /** `get_balances(chat_id)`: `None` when an expense names a payer or participant that is not a member. */
    method GetBalances(chatId: int) returns (result: Option<Balances.BalanceMap>)
      ensures result == Balances.BalancesOf(MemberIdsIn(members, chatId), ChargesIn(expenses, links, chatId))
    {
      result := Balances.GetBalances(MemberIdsIn(members, chatId), ChargesIn(expenses, links, chatId));
    }

    /** `show_transactions(chat_id)`: the balances, then the settlement plan over them in member order. */
    method ShowTransactions(chatId: int) returns (result: Option<seq<Settlement.Transfer>>)
      ensures result == SettlementOf(members, expenses, links, chatId)
    {
      var ids := MemberIdsIn(members, chatId);
      var balances := GetBalances(chatId);
      if balances.None? {
        return None;
      }
      BalanceKeys(ids, ChargesIn(expenses, links, chatId));
      var transactions := Settlement.CalculateOptimalTransactions(Items(balances.value, ids));
      result := Some(transactions);
    }
  }

  predicate IdsBelow(expenses: seq<ExpenseRow>, nextId: int) {
    forall k :: 0 <= k < |expenses| ==> 1 <= expenses[k].id < nextId
  }

  /** `id` is the primary key of `expenses`. */
  predicate UniqueExpenseIds(expenses: seq<ExpenseRow>) {
    forall i, j :: 0 <= i < j < |expenses| ==> expenses[i].id != expenses[j].id
  }

  /** Every link names an expense id already handed out (`expense_id` references `expenses`). */
  predicate LinksBelow(links: seq<LinkRow>, nextId: int) {
    forall k :: 0 <= k < |links| ==> links[k].expenseId < nextId
  }

  lemma LinksForSnoc(id: int, participants: seq<int>, k: int)
    requires 0 <= k < |participants|
    ensures LinksFor(id, participants[..k + 1]) == LinksFor(id, participants[..k]) + [LinkRow(id, participants[k])]
  {
  }

  lemma LinksUnique(links: seq<LinkRow>, id: int, participants: seq<int>)
    requires NoDup(links) && NoDup(participants)
    requires forall k :: 0 <= k < |links| ==> links[k].expenseId < id
    ensures NoDup(links + LinksFor(id, participants))
    ensures forall k :: 0 <= k < |links + LinksFor(id, participants)| ==> (links + LinksFor(id, participants))[k].expenseId <= id
  {
    var r := links + LinksFor(id, participants);
    forall i, j | 0 <= i < j < |r| ensures r[i] != r[j] {
      if j >= |links| && i >= |links| {
        assert r[i].memberId == participants[i - |links|] && r[j].memberId == participants[j - |links|];
      }
    }
  }

  /** Deleting rows keeps the `expenses` table's key unique and below the counter. */
  lemma WithoutExpenseValid(expenses: seq<ExpenseRow>, id: int, nextId: int)
    requires IdsBelow(expenses, nextId) && UniqueExpenseIds(expenses)
    ensures IdsBelow(WithoutExpense(expenses, id), nextId) && UniqueExpenseIds(WithoutExpense(expenses, id))
  {
    var es := WithoutExpense(expenses, id);
    forall k | 0 <= k < |es| ensures 1 <= es[k].id < nextId {
      WithoutExpenseExactly(expenses, id, es[k]);
    }
    WithoutExpenseUnique(expenses, id);
  }

  lemma {:induction false} WithoutExpenseUnique(expenses: seq<ExpenseRow>, id: int)
    requires UniqueExpenseIds(expenses)
    ensures UniqueExpenseIds(WithoutExpense(expenses, id))
  {
    if expenses != [] {
      var tail := expenses[1..];
      assert UniqueExpenseIds(tail);
      WithoutExpenseUnique(tail, id);
      var rest := WithoutExpense(tail, id);
      if expenses[0].id != id {
        forall j | 0 <= j < |rest| ensures expenses[0].id != rest[j].id {
          WithoutExpenseExactly(tail, id, rest[j]);
          var m :| 0 <= m < |tail| && tail[m] == rest[j];
          assert expenses[m + 1] == tail[m];
        }
        assert WithoutExpense(expenses, id) == [expenses[0]] + rest;
      }
    }
  }

  /** Deleting links keeps them duplicate-free and below the counter. */
  lemma {:induction false} WithoutLinksValid(links: seq<LinkRow>, id: int, nextId: int)
    requires LinksBelow(links, nextId) && NoDup(links)
    ensures LinksBelow(WithoutLinks(links, id), nextId) && NoDup(WithoutLinks(links, id))
  {
    if links != [] {
      var tail := links[1..];
      NoDupTail(links);
      assert LinksBelow(tail, nextId);
      WithoutLinksValid(tail, id, nextId);
      var rest := WithoutLinks(tail, id);
      if links[0].expenseId != id {
        WithoutLinksExactly(tail, id, links[0]);
        NoDupCons(links[0], rest);
        assert WithoutLinks(links, id) == [links[0]] + rest;
      }
    }
  }

  // ---------------------------------------------------------------- settling the ledger

  /** `balances.items()` for a dictionary whose keys were inserted in the order `keys`. */
  function Items(b: Balances.BalanceMap, keys: seq<int>): (items: seq<(int, real)>)
    requires forall k :: 0 <= k < |keys| ==> keys[k] in b
    ensures |items| == |keys|
    ensures forall k :: 0 <= k < |keys| ==> items[k] == (keys[k], b[keys[k]])
  {
    if keys == [] then [] else [(keys[0], b[keys[0]])] + Items(b, keys[1..])
  }

  /** The balance dictionary has an entry for every member, in member order. */
  lemma BalanceKeys(memberIds: seq<int>, charges: seq<Balances.Charge>)
    requires Balances.BalancesOf(memberIds, charges).Some?
    ensures forall k :: 0 <= k < |memberIds| ==> memberIds[k] in Balances.BalancesOf(memberIds, charges).value
  {
  }

  lemma {:induction false} ItemsSum(b: Balances.BalanceMap, keys: seq<int>)
    requires forall k :: 0 <= k < |keys| ==> keys[k] in b
    ensures Settlement.SumBalances(Items(b, keys)) == Balances.SumOver(b, keys)
  {
    if keys != [] {
      ItemsSum(b, keys[1..]);
      SumBalancesCons((keys[0], b[keys[0]]), Items(b, keys[1..]));
    }
  }

  lemma {:induction false} SumBalancesCons(e: (int, real), rest: seq<(int, real)>)
    ensures Settlement.SumBalances([e] + rest) == e.1 + Settlement.SumBalances(rest)
    decreases |rest|
  {
    if rest != [] {
      var n := |rest| - 1;
      assert ([e] + rest)[..n + 1] == [e] + rest[..n];
      SumBalancesCons(e, rest[..n]);
    }
  }

  lemma ItemsDistinct(b: Balances.BalanceMap, keys: seq<int>)
    requires forall k :: 0 <= k < |keys| ==> keys[k] in b
    requires NoDup(keys)
    ensures Settlement.DistinctIds(Items(b, keys))
  {
  }

  /** What `show_transactions` computes for a chat: `None` when `get_balances` raises, otherwise the plan. */
  function SettlementOf(members: seq<MemberRow>, expenses: seq<ExpenseRow>, links: seq<LinkRow>, chatId: int): Option<seq<Settlement.Transfer>> {
    var ids := MemberIdsIn(members, chatId);
    var charges := ChargesIn(expenses, links, chatId);
    match Balances.BalancesOf(ids, charges)
    case None => None
    case Some(b) =>
      BalanceKeys(ids, charges);
      Some(Settlement.Plan(Items(b, ids)))
  }

  /**
   * The ledger settles: in a consistent store whose balances are defined (no
   * expense names a non-member), carrying out the planned transfers brings
   * every member of the chat to a balance of exactly zero.
   */
  lemma LedgerSettles(members: seq<MemberRow>, expenses: seq<ExpenseRow>, links: seq<LinkRow>, chatId: int, k: int)
    requires UniqueMembers(members)
    requires Balances.BalancesOf(MemberIdsIn(members, chatId), ChargesIn(expenses, links, chatId)).Some?
    requires 0 <= k < |MemberIdsIn(members, chatId)|
    ensures var ids := MemberIdsIn(members, chatId);
      var b := Balances.BalancesOf(ids, ChargesIn(expenses, links, chatId)).value;
      forall k :: 0 <= k < |ids| ==> ids[k] in b
    ensures var ids := MemberIdsIn(members, chatId);
      var b := Balances.BalancesOf(ids, ChargesIn(expenses, links, chatId)).value;
      var plan := Settlement.Plan(Items(b, ids));
      b[ids[k]] + Settlement.Paid(plan, ids[k]) - Settlement.Received(plan, ids[k]) == 0.0
  {
    var ids := MemberIdsIn(members, chatId);
    var charges := ChargesIn(expenses, links, chatId);
    var b := Balances.BalancesOf(ids, charges).value;
    BalanceKeys(ids, charges);
    MemberIdsInNoDup(members, chatId);
    Balances.BalancesSumToZero(ids, charges);
    ItemsSum(b, ids);
    ItemsDistinct(b, ids);
    Settlement.PlanSettles(Items(b, ids), k);
  }
}
