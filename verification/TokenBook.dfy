/** Token balances and the sum of what a contract owes.
    A transfer is an atomic balance move which either happens or fails. */
module TokenBook {
  import opened Wrappers

  type Address = nat
  type Token = nat

  /** The contract's own account, or an outside party. The vault never signs for itself,
      so a sponsor, recipient or treasury is always a `Party`. */
  datatype Holder = Vault | Party(address: Address)

  type Balances = map<(Token, Holder), int>

  function BalanceOf(b: Balances, token: Token, h: Holder): int {
    if (token, h) in b then b[(token, h)] else 0
  }

  /** A transfer: refused when the token refuses it or `from` holds too little. */
  function Transfer(b: Balances, frozen: set<Token>, token: Token, from: Holder, to: Holder, amount: int)
    : (r: Option<Balances>)
    ensures r.Some? <==> token !in frozen && 0 <= amount <= BalanceOf(b, token, from)
  {
    if token in frozen || amount < 0 || BalanceOf(b, token, from) < amount then None
    else
      var taken := b[(token, from) := BalanceOf(b, token, from) - amount];
      Some(taken[(token, to) := BalanceOf(taken, token, to) + amount])
  }

  function Change(token: Token, from: Holder, to: Holder, amount: int, t: Token, h: Holder): int {
    if t != token then 0 else if h == from then -amount else if h == to then amount else 0
  }

  /** `amount` went from one account to another, and no other balance changed. */
  ghost predicate Transferred(before: Balances, after: Balances, token: Token, from: Holder, to: Holder, amount: int) {
    forall t, h :: BalanceOf(after, t, h) == BalanceOf(before, t, h) + Change(token, from, to, amount, t, h)
  }

  lemma TransferMoves(b: Balances, frozen: set<Token>, token: Token, from: Holder, to: Holder, amount: int,
                      t: Token, h: Holder)
    requires from != to
    ensures var r := Transfer(b, frozen, token, from, to, amount);
            r.Some? ==> BalanceOf(r.value, t, h) == BalanceOf(b, t, h) + Change(token, from, to, amount, t, h)
  {}

  lemma TransferDone(b: Balances, frozen: set<Token>, token: Token, from: Holder, to: Holder, amount: int)
    requires from != to
    ensures var r := Transfer(b, frozen, token, from, to, amount);
            r.Some? ==> Transferred(b, r.value, token, from, to, amount)
  {
    forall t, h { TransferMoves(b, frozen, token, from, to, amount, t, h); }
  }

  /** What arrives is what left: no token is made or lost on the way. */
  lemma TransferPays(b: Balances, frozen: set<Token>, token: Token, from: Holder, to: Holder, amount: int)
    requires from != to && token !in frozen && 0 <= amount <= BalanceOf(b, token, from)
    ensures var r := Transfer(b, frozen, token, from, to, amount);
            && r.Some? && Transferred(b, r.value, token, from, to, amount)
            && BalanceOf(r.value, token, from) == BalanceOf(b, token, from) - amount
            && BalanceOf(r.value, token, to) == BalanceOf(b, token, to) + amount
            && forall t, h :: t != token || (h != from && h != to) ==> BalanceOf(r.value, t, h) == BalanceOf(b, t, h)
  {
    TransferDone(b, frozen, token, from, to, amount);
  }

  // ----- what is owed -----

  /** What one stream still has to pay out, and in which token. */
  datatype Debt = Debt(token: Token, amount: int)

  function Due(d: Debt, token: Token): int {
    if d.token == token then d.amount else 0
  }

  /** The sum of all debts in one token. */
  ghost function Owed<K(!new)>(debts: map<K, Debt>, token: Token): int
    decreases |debts|
  {
    if debts == map[] then 0
    else
      var k :| k in debts;
      assert (debts - {k}).Keys == debts.Keys - {k};
      Due(debts[k], token) + Owed(debts - {k}, token)
  }

  /** Any one debt may be taken out first. */
  lemma {:induction false} OwedRemove<K(!new)>(debts: map<K, Debt>, k: K, token: Token)
    requires k in debts
    ensures Owed(debts, token) == Due(debts[k], token) + Owed(debts - {k}, token)
    decreases |debts|
  {
    var first :| first in debts && Owed(debts, token) == Due(debts[first], token) + Owed(debts - {first}, token);
    if first != k {
      var rest := debts - {first};
      assert rest.Keys == debts.Keys - {first};
      OwedRemove(rest, k, token);
      assert (debts - {k}).Keys == debts.Keys - {k};
      OwedRemove(debts - {k}, first, token);
      assert rest - {k} == (debts - {k}) - {first};
    }
  }

  function DueIf(d: Option<Debt>, token: Token): int {
    if d.Some? then Due(d.value, token) else 0
  }

  /** Setting or removing one debt changes the sum by the difference of the two. */
  lemma OwedPut<K(!new)>(debts: map<K, Debt>, k: K, d: Option<Debt>, token: Token)
    ensures Owed(Put(debts, k, d), token) == Owed(debts, token) - DueIf(Lookup(debts, k), token) + DueIf(d, token)
  {
    if d.Some? {
      OwedRemove(debts[k := d.value], k, token);
      assert debts[k := d.value] - {k} == debts - {k};
    }
    if k in debts {
      OwedRemove(debts, k, token);
    } else {
      assert debts - {k} == debts;
    }
  }

  lemma {:induction false} OwedNonNegative<K(!new)>(debts: map<K, Debt>, token: Token)
    requires forall k :: k in debts ==> debts[k].amount >= 0
    ensures Owed(debts, token) >= 0
    ensures forall k :: k in debts ==> Due(debts[k], token) <= Owed(debts, token)
    decreases |debts|
  {
    forall k | k in debts
      ensures 0 <= Due(debts[k], token) <= Owed(debts, token)
    {
      OwedRemove(debts, k, token);
      assert (debts - {k}).Keys == debts.Keys - {k};
      OwedNonNegative(debts - {k}, token);
    }
  }

  /** When the vault's balance moves by as much as one debt, what it holds beyond these debts stays the same. */
  lemma MoveMatchesDebt<K(!new)>(debts: map<K, Debt>, k: K, next: Option<Debt>,
                                 before: Balances, after: Balances, token: Token, from: Holder, to: Holder, amount: int)
    requires Transferred(before, after, token, from, to, amount)
    requires forall t :: DueIf(next, t) - DueIf(Lookup(debts, k), t) == Change(token, from, to, amount, t, Vault)
    ensures forall t ::
              BalanceOf(after, t, Vault) - Owed(Put(debts, k, next), t)
              == BalanceOf(before, t, Vault) - Owed(debts, t)
  {
    forall t
      ensures BalanceOf(after, t, Vault) - Owed(Put(debts, k, next), t) == BalanceOf(before, t, Vault) - Owed(debts, t)
    {
      OwedPut(debts, k, next, t);
      assert DueIf(next, t) - DueIf(Lookup(debts, k), t) == Change(token, from, to, amount, t, Vault);
    }
  }
}
