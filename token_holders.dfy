/** useTokenHolders: a running balance per address, built by folding ERC-20 Transfer events
    into a record, and the list of addresses whose balance is positive. Event decoding and
    the event subscription are not modelled: a log arrives already decoded, with its `args`
    possibly missing. The record is an insertion-ordered list of entries, the order in which
    `Object.entries` reports them. */
module TokenHolders {
  import opened Wrappers
  import opened AddressFormat

  const ZeroAddress: Address := "0x0000000000000000000000000000000000000000"

  datatype Transfer = Transfer(from: Address, to: Address, value: nat)

  /** A decoded log: its Transfer arguments, or None when decoding produced no `args`. */
  type Log = Option<Transfer>

  datatype Entry = Entry(address: Address, balance: int)

  /** The `balances` record. */
  type Ledger = seq<Entry>

  /** Whether the record has an entry for `a`. */
  predicate Has(l: Ledger, a: Address) {
    l != [] && (l[0].address == a || Has(l[1..], a))
  }

  /** No address has two entries. */
  predicate Distinct(l: Ledger) {
    l == [] || (!Has(l[1..], l[0].address) && Distinct(l[1..]))
  }

  /** `balances[a] || 0n`: an absent entry reads as zero. */
  function Get(l: Ledger, a: Address): int
  {
    if l == [] then 0 else if l[0].address == a then l[0].balance else Get(l[1..], a)
  }

  /** `balances[a] = x`: the entry is overwritten in place, or added at the end if new. */
  function Store(l: Ledger, a: Address, x: int): (r: Ledger)
    ensures |r| == |l| || |r| == |l| + 1
  {
    if l == [] then [Entry(a, x)]
    else if l[0].address == a then [Entry(a, x)] + l[1..]
    else [l[0]] + Store(l[1..], a, x)
  }

  /** After storing x for a, a reads x and every other address reads as before. */
  lemma {:induction false} StoreGet(l: Ledger, a: Address, x: int, b: Address)
    ensures Get(Store(l, a, x), b) == if b == a then x else Get(l, b)
  {
    if l != [] && l[0].address != a {
      StoreGet(l[1..], a, x, b);
      assert Store(l, a, x)[1..] == Store(l[1..], a, x);
    }
  }

  /** After storing, the record lists `a` and whatever it listed before, nothing else. */
  lemma {:induction false} StoreHas(l: Ledger, a: Address, x: int, b: Address)
    ensures Has(Store(l, a, x), b) <==> b == a || Has(l, b)
  {
    if l != [] && l[0].address != a {
      StoreHas(l[1..], a, x, b);
      assert Store(l, a, x)[1..] == Store(l[1..], a, x);
    } else if l != [] {
      assert Store(l, a, x)[1..] == l[1..];
    }
  }

  /** Storing keeps the addresses distinct. */
  lemma {:induction false} StoreDistinct(l: Ledger, a: Address, x: int)
    requires Distinct(l)
    ensures Distinct(Store(l, a, x))
  {
    if l != [] && l[0].address != a {
      StoreDistinct(l[1..], a, x);
      StoreHas(l[1..], a, x, l[0].address);
      assert Store(l, a, x)[1..] == Store(l[1..], a, x);
    } else if l != [] {
      assert Store(l, a, x)[1..] == l[1..];
    }
  }

  /** An address without an entry reads as zero. */
  lemma {:induction false} AbsentReadsZero(l: Ledger, a: Address)
    requires !Has(l, a)
    ensures Get(l, a) == 0
  {
    if l != [] {
      AbsentReadsZero(l[1..], a);
    }
  }

  /** The sender's entry after `balances[from] = (balances[from] || 0n) - value`. */
  function Debit(l: Ledger, a: Address, value: nat): Ledger
  {
    Store(l, a, Get(l, a) - value)
  }

  /** The recipient's entry after `balances[to] = (balances[to] || 0n) + value`. */
  function Credit(l: Ledger, a: Address, value: nat): Ledger
  {
    Store(l, a, Get(l, a) + value)
  }

  /** One log of onLogs: debit the sender unless it is the zero address (a mint), then
      credit the recipient; a log without args changes nothing. */
  function ApplyLog(l: Ledger, log: Log): (r: Ledger)
    ensures log.None? ==> r == l
    ensures log.Some? ==> Has(r, log.value.to)
    ensures log.Some? && log.value.from != ZeroAddress ==> Has(r, log.value.from)
    ensures |l| <= |r| <= |l| + 2
  {
    match log
    case None => l
    case Some(t) =>
      var debited := if t.from != ZeroAddress then Debit(l, t.from, t.value) else l;
      StoreHas(l, t.from, Get(l, t.from) - t.value, t.from);
      StoreHas(debited, t.to, Get(debited, t.to) + t.value, t.to);
      StoreHas(debited, t.to, Get(debited, t.to) + t.value, t.from);
      Credit(debited, t.to, t.value)
  }

  /** The logs of one onLogs call, applied in order. */
  function Fold(l: Ledger, logs: seq<Log>): (r: Ledger)
    ensures (forall i :: 0 <= i < |logs| ==> logs[i].None?) ==> r == l
    ensures |l| <= |r| <= |l| + 2 * |logs|
  {
    if logs == [] then l else ApplyLog(Fold(l, logs[..|logs| - 1]), logs[|logs| - 1])
  }

  /** Debiting `value` from a lowers a's balance by it and leaves every other one alone. */
  lemma DebitGet(l: Ledger, a: Address, value: nat, b: Address)
    ensures Get(Debit(l, a, value), b) == Get(l, b) - (if b == a then value else 0)
  {
    StoreGet(l, a, Get(l, a) - value, b);
  }

  /** Crediting `value` to a raises a's balance by it and leaves every other one alone. */
  lemma CreditGet(l: Ledger, a: Address, value: nat, b: Address)
    ensures Get(Credit(l, a, value), b) == Get(l, b) + (if b == a then value else 0)
  {
    StoreGet(l, a, Get(l, a) + value, b);
  }

  /** Every balance moves by what the transfer sends it, minus what it sends, except that
      the zero address is never debited; nobody else is touched. */
  lemma ApplyTransfer(l: Ledger, t: Transfer, a: Address)
    ensures Get(ApplyLog(l, Some(t)), a)
         == Get(l, a) - (if a == t.from && t.from != ZeroAddress then t.value else 0)
                      + (if a == t.to then t.value else 0)
  {
    var debited := if t.from != ZeroAddress then Debit(l, t.from, t.value) else l;
    assert Get(debited, a) == Get(l, a) - (if a == t.from && t.from != ZeroAddress then t.value else 0) by {
      if t.from != ZeroAddress {
        DebitGet(l, t.from, t.value, a);
      }
    }
    CreditGet(debited, t.to, t.value, a);
  }

  /** A mint debits nobody: only the recipient's balance changes, up by `value`. */
  lemma MintCreditsOnlyRecipient(l: Ledger, to: Address, value: nat, a: Address)
    ensures Get(ApplyLog(l, Some(Transfer(ZeroAddress, to, value))), a)
         == if a == to then Get(l, a) + value else Get(l, a)
  {
    ApplyTransfer(l, Transfer(ZeroAddress, to, value), a);
  }

  /** The sum of all balances. */
  function Total(l: Ledger): int
  {
    if l == [] then 0 else l[0].balance + Total(l[1..])
  }

  /** Storing x for a moves the total by the change in a's balance. */
  lemma {:induction false} StoreTotal(l: Ledger, a: Address, x: int)
    ensures Total(Store(l, a, x)) == Total(l) - Get(l, a) + x
  {
    if l != [] && l[0].address != a {
      StoreTotal(l[1..], a, x);
      assert Store(l, a, x)[1..] == Store(l[1..], a, x);
    } else if l != [] {
      assert Store(l, a, x)[1..] == l[1..];
    }
  }

  /** A transfer between two non-zero addresses keeps the total; a mint raises it by `value`. */
  lemma TransferTotal(l: Ledger, t: Transfer)
    ensures Total(ApplyLog(l, Some(t))) == Total(l) + (if t.from == ZeroAddress then t.value else 0)
  {
    var debited := if t.from != ZeroAddress then Debit(l, t.from, t.value) else l;
    if t.from != ZeroAddress {
      StoreTotal(l, t.from, Get(l, t.from) - t.value);
    }
    StoreTotal(debited, t.to, Get(debited, t.to) + t.value);
  }

  /** The value minted by a run of logs. */
  function Minted(logs: seq<Log>): nat
  {
    if logs == [] then 0
    else
      var log := logs[|logs| - 1];
      Minted(logs[..|logs| - 1]) + (if log.Some? && log.value.from == ZeroAddress then log.value.value else 0)
  }

  /** Over any run of logs, the total grows by exactly the minted value. */
  lemma {:induction false} FoldTotal(l: Ledger, logs: seq<Log>)
    ensures Total(Fold(l, logs)) == Total(l) + Minted(logs)
  {
    if logs != [] {
      var init := logs[..|logs| - 1];
      FoldTotal(l, init);
      if logs[|logs| - 1].Some? {
        TransferTotal(Fold(l, init), logs[|logs| - 1].value);
      }
    }
  }

  /** Applying a log keeps the addresses distinct. */
  lemma ApplyDistinct(l: Ledger, log: Log)
    requires Distinct(l)
    ensures Distinct(ApplyLog(l, log))
  {
    if log.Some? {
      var t := log.value;
      var debited := if t.from != ZeroAddress then Debit(l, t.from, t.value) else l;
      if t.from != ZeroAddress {
        StoreDistinct(l, t.from, Get(l, t.from) - t.value);
      }
      StoreDistinct(debited, t.to, Get(debited, t.to) + t.value);
    }
  }

  /** The entries with a positive balance, in record order. */
  function Holders(l: Ledger): (r: seq<Entry>)
    ensures |r| <= |l|
    ensures forall i :: 0 <= i < |r| ==> r[i].balance > 0
  {
    if l == [] then []
    else
      var rest := Holders(l[1..]);
      if l[0].balance > 0 then [l[0]] + rest else rest
  }

  /** With distinct addresses, an address is listed exactly when its balance is positive,
      and it is listed with that balance. */
  lemma {:induction false} HoldersExact(l: Ledger, a: Address)
    requires Distinct(l)
    ensures Has(Holders(l), a) <==> Get(l, a) > 0
    ensures Get(Holders(l), a) == if Get(l, a) > 0 then Get(l, a) else 0
  {
    if l != [] {
      var rest := Holders(l[1..]);
      HoldersExact(l[1..], a);
      if l[0].address == a {
        AbsentReadsZero(l[1..], a);
      }
      if l[0].balance > 0 {
        assert ([l[0]] + rest)[1..] == rest;
      }
    }
  }

  /** The hook's `balances` record and its onLogs callback. */
  class TokenHolderLedger {
    var balances: Ledger

    constructor ()
      ensures balances == [] && Distinct(balances)
    {
      balances := [];
    }

    /** The body of onLogs' loop for one log: debit the sender unless it is the zero
        address, then credit the recipient; a log without args is skipped. */
    method Apply(log: Log)
      modifies this
      ensures balances == ApplyLog(old(balances), log)
    {
      match log {
        case None =>
        case Some(t) =>
          if t.from != ZeroAddress {
            balances := Store(balances, t.from, Get(balances, t.from) - t.value);
          }
          balances := Store(balances, t.to, Get(balances, t.to) + t.value);
      }
    }

    /** onLogs: each log in turn, updating the record in place. */
    method OnLogs(logs: seq<Log>)
      modifies this
      requires Distinct(balances)
      ensures balances == Fold(old(balances), logs)
      ensures Distinct(balances)
      ensures Total(balances) == old(Total(balances)) + Minted(logs)
    {
      ghost var start := balances;
      var i := 0;
      while i < |logs|
        invariant 0 <= i <= |logs|
        invariant balances == Fold(start, logs[..i])
        invariant Distinct(balances)
        decreases |logs| - i
      {
        assert logs[..i + 1][..i] == logs[..i];
        ApplyDistinct(balances, logs[i]);
        Apply(logs[i]);
        i := i + 1;
      }
      assert logs[..|logs|] == logs;
      FoldTotal(start, logs);
    }

    /** The holder list: the addresses with a positive balance, each with that balance. */
    function HolderList(): (r: seq<Entry>)
      reads this
      requires Distinct(balances)
      ensures forall a :: Has(r, a) <==> Get(balances, a) > 0
      ensures forall a :: Get(r, a) == if Get(balances, a) > 0 then Get(balances, a) else 0
    {
      forall a
        ensures Has(Holders(balances), a) <==> Get(balances, a) > 0
        ensures Get(Holders(balances), a) == if Get(balances, a) > 0 then Get(balances, a) else 0
      {
        HoldersExact(balances, a);
      }
      Holders(balances)
    }
  }
}
