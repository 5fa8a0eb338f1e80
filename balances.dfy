/** The balance cards of a group page. Balances arrive computed; the
    client only classifies each signed amount and formats it. A negative
    amount means the member gets money back. */
module Balances {
  import opened Optional
  import opened Domain

  datatype Status = Lent | Borrowed

  /** The text `Intl.NumberFormat` produces for a currency is determined by
      the currency's acronym and the magnitude formatted. */
  datatype Cost = Cost(acronym: string, magnitude: nat)

  /** `[status, description, cost]`. */
  datatype Relative = Relative(status: Status, description: string, cost: Cost)

  /** A member's balance: per-currency totals and, per other user, per-currency
      debts, each in the order `Object.entries` lists them. */
  datatype Balance = Balance(userId: UserId, total: seq<(int, int)>, owes: seq<(UserId, seq<(int, int)>)>)

  datatype DebtLine = DebtLine(member: User, relative: Relative, preposition: string, ower: User)

  datatype Card = Card(member: User, header: Relative, marker: string, lines: seq<DebtLine>)

  function Abs(x: int): nat {
    if x < 0 then -x else x
  }

  /** `relativeStatus([currencyId, amount])`; looking up a currency that is
      not in the table throws, which gives nothing here. */
  function RelativeStatus(currencies: map<int, Currency>, entry: (int, int)): Option<Relative> {
    var (id, amount) := entry;
    if id !in currencies then None
    else
      var cost := Cost(currencies[id].acronym, Abs(amount));
      var status := if amount < 0 then Lent else Borrowed;
      var description := if status == Lent then "gets back" else "owes";
      Some(Relative(status, description, cost))
  }

  /** A debt line reads "from" the other user when the member lent, else "to". */
  function Preposition(status: Status): string {
    if status == Lent then "from" else "to"
  }

  /** `usersMap`: each member's user under the user's id; `fromEntries`
      keeps the last entry for a repeated id. */
  function UsersMap(members: seq<Membership>): map<UserId, User>
    decreases |members|
  {
    if members == [] then map[]
    else
      var m := members[|members| - 1];
      UsersMap(members[..|members| - 1])[m.user.id := m.user]
  }

  /** The lines for one other user's debts. */
  function DebtsOf(currencies: map<int, Currency>, member: User, ower: User, debts: seq<(int, int)>): Option<seq<DebtLine>>
    decreases |debts|
  {
    if debts == [] then Some([])
    else
      match RelativeStatus(currencies, debts[0])
      case None => None
      case Some(r) =>
        match DebtsOf(currencies, member, ower, debts[1..])
        case None => None
        case Some(rest) => Some([DebtLine(member, r, Preposition(r.status), ower)] + rest)
  }

  /** All debt lines of a card, looking each other user up by id; a missing
      user throws when its picture is read, which only happens when it
      has a line to show. */
  function DebtLines(users: map<UserId, User>, currencies: map<int, Currency>, member: User, owes: seq<(UserId, seq<(int, int)>)>): Option<seq<DebtLine>>
    decreases |owes|
  {
    if owes == [] then Some([])
    else
      var (owerId, debts) := owes[0];
      var lines :=
        if debts == [] then Some([])
        else if owerId !in users then None
        else DebtsOf(currencies, member, users[owerId], debts);
      match lines
      case None => None
      case Some(first) =>
        match DebtLines(users, currencies, member, owes[1..])
        case None => None
        case Some(rest) => Some(first + rest)
  }

  /** One balance card. The header summarises the first currency of the
      total only, marked with `*` when there are more; an empty total, a
      member or currency not found throws. */
  function BalanceCard(users: map<UserId, User>, currencies: map<int, Currency>, b: Balance): Option<Card> {
    if b.total == [] || b.userId !in users then None
    else
      match RelativeStatus(currencies, b.total[0])
      case None => None
      case Some(header) =>
        var member := users[b.userId];
        match DebtLines(users, currencies, member, b.owes)
        case None => None
        case Some(lines) => Some(Card(member, header, if |b.total| > 1 then "*" else "", lines))
  }

  /** A negative amount is lent and "gets back", any other is borrowed and
      "owes"; the cost is formatted from the magnitude. */
  lemma RelativeStatusMeaning(currencies: map<int, Currency>, id: int, amount: int)
    ensures RelativeStatus(currencies, (id, amount)).Some? <==> id in currencies
    ensures id in currencies ==>
      var r := RelativeStatus(currencies, (id, amount)).value;
      && (r.status == Lent <==> amount < 0)
      && r.description == (if amount < 0 then "gets back" else "owes")
      && r.cost == Cost(currencies[id].acronym, Abs(amount))
  {
  }

  /** An amount and its negation, when nonzero, have opposite statuses and the same cost. */
  lemma RelativeStatusNegate(currencies: map<int, Currency>, id: int, amount: int)
    requires id in currencies && amount != 0
    ensures var r := RelativeStatus(currencies, (id, amount)).value;
      var s := RelativeStatus(currencies, (id, -amount)).value;
      r.status != s.status && r.description != s.description && r.cost == s.cost
  {
  }

  /** The id map holds exactly the members' ids. */
  lemma {:induction false} UsersMapKeys(members: seq<Membership>, id: UserId)
    ensures id in UsersMap(members) <==> exists i :: 0 <= i < |members| && members[i].user.id == id
    decreases |members|
  {
    if members != [] {
      var k := |members| - 1;
      var init := members[..k];
      UsersMapKeys(init, id);
      if id != members[k].user.id && id in UsersMap(members) {
        var i :| 0 <= i < |init| && init[i].user.id == id;
        assert members[i] == init[i];
      }
      if exists i :: 0 <= i < |members| && members[i].user.id == id {
        var i :| 0 <= i < |members| && members[i].user.id == id;
        if i < k {
          assert init[i] == members[i];
        }
      }
    }
  }

  /** A member's id maps to that member's user when no later member has the same id. */
  lemma {:induction false} UsersMapLastWins(members: seq<Membership>, i: int)
    requires 0 <= i < |members|
    requires forall j :: i < j < |members| ==> members[j].user.id != members[i].user.id
    ensures members[i].user.id in UsersMap(members)
    ensures UsersMap(members)[members[i].user.id] == members[i].user
    decreases |members|
  {
    var k := |members| - 1;
    if i < k {
      var init := members[..k];
      assert init[i] == members[i];
      forall j | i < j < |init| ensures init[j].user.id != init[i].user.id {
        assert init[j] == members[j];
      }
      UsersMapLastWins(init, i);
    }
  }

  /** The card's debt lines say "from" exactly for lent amounts; one line
      per debt entry. */
  lemma {:induction false} DebtsOfLines(currencies: map<int, Currency>, member: User, ower: User, debts: seq<(int, int)>)
    requires DebtsOf(currencies, member, ower, debts).Some?
    ensures var lines := DebtsOf(currencies, member, ower, debts).value;
      && |lines| == |debts|
      && forall i :: 0 <= i < |lines| ==>
        && lines[i].member == member && lines[i].ower == ower
        && Some(lines[i].relative) == RelativeStatus(currencies, debts[i])
        && (lines[i].preposition == "from" <==> lines[i].relative.status == Lent)
    decreases |debts|
  {
    if debts != [] {
      DebtsOfLines(currencies, member, ower, debts[1..]);
      var lines := DebtsOf(currencies, member, ower, debts).value;
      forall i | 1 <= i < |lines| ensures debts[i] == debts[1..][i - 1] { }
    }
  }

  /** The number of debt entries over all other users. */
  function DebtCount(owes: seq<(UserId, seq<(int, int)>)>): nat
    decreases |owes|
  {
    if owes == [] then 0 else |owes[0].1| + DebtCount(owes[1..])
  }

  /** A card shows one line per debt entry, each about the card's member,
      reading "from" exactly when the member lent. */
  lemma {:induction false} DebtLinesShape(users: map<UserId, User>, currencies: map<int, Currency>, member: User, owes: seq<(UserId, seq<(int, int)>)>)
    requires DebtLines(users, currencies, member, owes).Some?
    ensures var lines := DebtLines(users, currencies, member, owes).value;
      && |lines| == DebtCount(owes)
      && forall i :: 0 <= i < |lines| ==>
        lines[i].member == member && (lines[i].preposition == "from" <==> lines[i].relative.status == Lent)
    decreases |owes|
  {
    if owes != [] {
      var (owerId, debts) := owes[0];
      var first: seq<DebtLine> := [];
      if debts != [] {
        DebtsOfLines(currencies, member, users[owerId], debts);
        first := DebtsOf(currencies, member, users[owerId], debts).value;
      }
      DebtLinesShape(users, currencies, member, owes[1..]);
      var rest := DebtLines(users, currencies, member, owes[1..]).value;
      assert DebtLines(users, currencies, member, owes).value == first + rest;
    }
  }

  /** The header is the first currency's classification, starred exactly
      when the total has more than one currency; an empty total gives no card. */
  lemma BalanceCardHeader(users: map<UserId, User>, currencies: map<int, Currency>, b: Balance)
    ensures b.total == [] ==> BalanceCard(users, currencies, b) == None
    ensures BalanceCard(users, currencies, b).Some? <==>
      && b.total != [] && b.userId in users && b.total[0].0 in currencies
      && DebtLines(users, currencies, users[b.userId], b.owes).Some?
    ensures BalanceCard(users, currencies, b).Some? ==>
      BalanceCard(users, currencies, b).value.lines == DebtLines(users, currencies, users[b.userId], b.owes).value
    ensures BalanceCard(users, currencies, b).Some? ==>
      var card := BalanceCard(users, currencies, b).value;
      && Some(card.header) == RelativeStatus(currencies, b.total[0])
      && card.member == users[b.userId]
      && (card.marker == "*" <==> |b.total| > 1)
  {
  }
}
