/** Trades: the token's buy and sell events, fetched in block windows from the deployment
    block to the latest block, merged and shuffled into one table. The RPC calls are
    parameters: `latestBlock` is how getBlockNumber ended (no client, a throw, or the
    block number), and `getLogs` gives a window's logs, None when the call throws. */
module Trades {
  import opened Wrappers
  import opened AddressFormat

  const DeploymentBlock: int := 46680516
  const BatchSize: nat := 50000

  /** How `await publicClient?.getBlockNumber()` ends: no client (undefined), a throw, or
      the latest block number. */
  datatype BlockNumber = NoClient | Threw | Latest(n: int)

  /** An inclusive block range [from, to]. */
  datatype Window = Window(from: int, to: int)

  /** The windows the loop requests: starting at `start`, each `size` blocks long except
      the last, which is cut off at `latest`. */
  function Windows(start: int, latest: int, size: nat): (r: seq<Window>)
    requires size > 0
    ensures r != [] ==> r[0].from == start && r[|r| - 1].to == latest
    ensures |r| <= 1 <==> start + size > latest
    decreases latest - start + 1
  {
    if start > latest then []
    else
      var end := if start + size - 1 > latest then latest else start + size - 1;
      [Window(start, end)] + Windows(start + size, latest, size)
  }

  /** No window at all (so no request) exactly when the latest block precedes the start. */
  lemma WindowsEmpty(start: int, latest: int, size: nat)
    requires size > 0
    ensures Windows(start, latest, size) == [] <==> latest < start
  {
  }

  /** Window i starts i batches after `start`, ends at min(from + size - 1, latest), and
      is non-empty and at most `size` blocks long. */
  lemma {:induction false} WindowShape(start: int, latest: int, size: nat, i: nat)
    requires size > 0 && i < |Windows(start, latest, size)|
    ensures var w := Windows(start, latest, size)[i];
            && w.from == start + i * size
            && w.to == (if w.from + size - 1 > latest then latest else w.from + size - 1)
            && w.from <= w.to <= latest
            && w.to - w.from + 1 <= size
    decreases latest - start + 1
  {
    if i > 0 {
      WindowsUnfold(start, latest, size);
      WindowShape(start + size, latest, size, i - 1);
      assert Windows(start, latest, size)[i] == Windows(start + size, latest, size)[i - 1];
      assert start + size + (i - 1) * size == start + i * size;
    } else {
      WindowsUnfold(start, latest, size);
    }
  }

  /** Each window begins right after the previous one ends. */
  lemma Contiguous(start: int, latest: int, size: nat, i: nat)
    requires size > 0 && i + 1 < |Windows(start, latest, size)|
    ensures Windows(start, latest, size)[i + 1].from == Windows(start, latest, size)[i].to + 1
  {
    WindowShape(start, latest, size, i);
    WindowShape(start, latest, size, i + 1);
    assert start + (i + 1) * size == start + i * size + size;
  }

  /** Windows are ordered and pairwise disjoint. */
  lemma {:induction false} Disjoint(start: int, latest: int, size: nat, i: nat, j: nat)
    requires size > 0 && i < j < |Windows(start, latest, size)|
    ensures Windows(start, latest, size)[i].to < Windows(start, latest, size)[j].from
    decreases j
  {
    Contiguous(start, latest, size, j - 1);
    if i < j - 1 {
      Disjoint(start, latest, size, i, j - 1);
      WindowShape(start, latest, size, j - 1);
    }
  }

  /** Every block from `start` to `latest` lies in some window, and no other block does. */
  lemma {:induction false} Cover(start: int, latest: int, size: nat, b: int)
    requires size > 0
    ensures (start <= b <= latest) <==>
            exists i :: 0 <= i < |Windows(start, latest, size)| &&
                        Windows(start, latest, size)[i].from <= b <= Windows(start, latest, size)[i].to
    decreases latest - start + 1
  {
    var ws := Windows(start, latest, size);
    if start <= latest {
      var end := if start + size - 1 > latest then latest else start + size - 1;
      var rest := Windows(start + size, latest, size);
      WindowsUnfold(start, latest, size);
      Cover(start + size, latest, size, b);
      if start <= b <= latest {
        if b > end {
          var k :| 0 <= k < |rest| && rest[k].from <= b <= rest[k].to;
          assert ws[k + 1] == rest[k];
        } else {
          assert ws[0].from <= b <= ws[0].to;
        }
      }
      forall i | 0 <= i < |ws| && ws[i].from <= b <= ws[i].to
        ensures start <= b <= latest
      {
        WindowShape(start, latest, size, i);
        assert start <= start + i * size;
      }
    }
  }

  /** The collected logs: every window's logs in window order, or None when a call throws. */
  function Collect<L>(ws: seq<Window>, getLogs: Window -> Option<seq<L>>): (r: Option<seq<L>>)
    ensures r.Some? ==> forall i :: 0 <= i < |ws| ==> getLogs(ws[i]).Some?
    ensures r.Some? && ws != [] ==> getLogs(ws[0]).value <= r.value
  {
    if ws == [] then Some([])
    else match getLogs(ws[0])
      case None => None
      case Some(batch) =>
        match Collect(ws[1..], getLogs)
        case None => None
        case Some(more) => Some(batch + more)
  }

  /** The windows requested: all of them, or up to and including the one whose call threw. */
  function Attempted<L>(ws: seq<Window>, getLogs: Window -> Option<seq<L>>): (r: seq<Window>)
    ensures |r| <= |ws| && r == ws[..|r|]
    ensures ws != [] ==> r != []
  {
    if ws == [] then []
    else if getLogs(ws[0]).None? then [ws[0]]
    else [ws[0]] + Attempted(ws[1..], getLogs)
  }

  /** A scan that has not passed `latest` requests one window and carries on after it. */
  lemma WindowsUnfold(start: int, latest: int, size: nat)
    requires size > 0 && start <= latest
    ensures Windows(start, latest, size)
         == [Window(start, if start + size - 1 > latest then latest else start + size - 1)]
            + Windows(start + size, latest, size)
  {
  }

  /** The scan stops at the FIRST throwing call: every requested window but the last one
      succeeded. */
  lemma {:induction false} AttemptedStopsAtFirst<L>(ws: seq<Window>, getLogs: Window -> Option<seq<L>>)
    ensures forall i :: 0 <= i < |Attempted(ws, getLogs)| - 1 ==> getLogs(Attempted(ws, getLogs)[i]).Some?
  {
    if ws != [] {
      AttemptedStopsAtFirst(ws[1..], getLogs);
    }
  }

  /** When the whole scan succeeds, every window was requested, in order. */
  lemma {:induction false} CollectAttemptsAll<L>(ws: seq<Window>, getLogs: Window -> Option<seq<L>>)
    requires Collect(ws, getLogs).Some?
    ensures Attempted(ws, getLogs) == ws
  {
    if ws != [] {
      CollectAttemptsAll(ws[1..], getLogs);
    }
  }

  /** A scan fails exactly when some window's call throws, and then it stops there. */
  lemma {:induction false} CollectFails<L>(ws: seq<Window>, getLogs: Window -> Option<seq<L>>)
    ensures Collect(ws, getLogs).None? <==> exists i :: 0 <= i < |ws| && getLogs(ws[i]).None?
    ensures Collect(ws, getLogs).None? ==> getLogs(Attempted(ws, getLogs)[|Attempted(ws, getLogs)| - 1]).None?
    ensures |Attempted(ws, getLogs)| <= |ws|
  {
    if ws != [] {
      CollectFails(ws[1..], getLogs);
      if getLogs(ws[0]).Some? && exists i :: 0 <= i < |ws[1..]| && getLogs(ws[1..][i]).None? {
        var i :| 0 <= i < |ws[1..]| && getLogs(ws[1..][i]).None?;
        assert ws[i + 1] == ws[1..][i];
      }
      if exists i :: 0 <= i < |ws| && getLogs(ws[i]).None? {
        var i :| 0 <= i < |ws| && getLogs(ws[i]).None?;
        if i > 0 {
          assert ws[1..][i - 1] == ws[i];
        }
      }
    }
  }

  function Prepend<L>(acc: seq<L>, rest: Option<seq<L>>): Option<seq<L>>
  {
    if rest.Some? then Some(acc + rest.value) else None
  }

  lemma CollectStep<L>(acc: seq<L>, w: Window, ws: seq<Window>, getLogs: Window -> Option<seq<L>>)
    requires getLogs(w).Some?
    ensures Prepend(acc, Collect([w] + ws, getLogs)) == Prepend(acc + getLogs(w).value, Collect(ws, getLogs))
  {
    assert ([w] + ws)[0] == w && ([w] + ws)[1..] == ws;
    var rest := Collect(ws, getLogs);
    if rest.Some? {
      assert acc + (getLogs(w).value + rest.value) == acc + getLogs(w).value + rest.value;
    }
  }

  lemma AttemptStep<L>(w: Window, ws: seq<Window>, getLogs: Window -> Option<seq<L>>)
    ensures Attempted([w] + ws, getLogs) == if getLogs(w).None? then [w] else [w] + Attempted(ws, getLogs)
  {
    assert ([w] + ws)[0] == w && ([w] + ws)[1..] == ws;
  }

  /** The loop's invariant: the whole scan's outcome is what has been collected and
      requested so far, followed by the scan of the windows from `start` on. */
  ghost predicate ScanInv<L>(all: seq<Window>, acc: seq<L>, requested: seq<Window>, start: int, latest: int,
                             getLogs: Window -> Option<seq<L>>)
  {
    && Collect(all, getLogs) == Prepend(acc, Collect(Windows(start, latest, BatchSize), getLogs))
    && Attempted(all, getLogs) == requested + Attempted(Windows(start, latest, BatchSize), getLogs)
  }

  /** One turn of the scan: the window at `start` is requested; a throwing call ends the
      whole scan, otherwise its logs join the accumulated ones and the scan moves on. */
  lemma ScanStep<L>(all: seq<Window>, acc: seq<L>, requested: seq<Window>, start: int, latest: int,
                    getLogs: Window -> Option<seq<L>>)
    requires start <= latest
    requires ScanInv(all, acc, requested, start, latest, getLogs)
    ensures var w := Window(start, if start + BatchSize - 1 > latest then latest else start + BatchSize - 1);
            && (getLogs(w).None? ==> Collect(all, getLogs) == None && Attempted(all, getLogs) == requested + [w])
            && (getLogs(w).Some? ==>
                  ScanInv(all, acc + getLogs(w).value, requested + [w], start + BatchSize, latest, getLogs))
  {
    var w := Window(start, if start + BatchSize - 1 > latest then latest else start + BatchSize - 1);
    var rest := Windows(start + BatchSize, latest, BatchSize);
    WindowsUnfold(start, latest, BatchSize);
    AttemptStep(w, rest, getLogs);
    assert ([w] + rest)[0] == w && ([w] + rest)[1..] == rest;
    if getLogs(w).Some? {
      CollectStep(acc, w, rest, getLogs);
      assert requested + ([w] + Attempted(rest, getLogs)) == (requested + [w]) + Attempted(rest, getLogs);
    }
  }

  /** Before the first turn nothing has been collected or requested. */
  lemma ScanStart<L>(latest: int, getLogs: Window -> Option<seq<L>>)
    ensures ScanInv(Windows(DeploymentBlock, latest, BatchSize), [], [], DeploymentBlock, latest, getLogs)
  {
    PrependNothing(Collect(Windows(DeploymentBlock, latest, BatchSize), getLogs));
  }

  /** Past the latest block nothing is left to scan. */
  lemma ScanDone<L>(all: seq<Window>, acc: seq<L>, requested: seq<Window>, start: int, latest: int,
                    getLogs: Window -> Option<seq<L>>)
    requires start > latest && ScanInv(all, acc, requested, start, latest, getLogs)
    ensures Collect(all, getLogs) == Some(acc) && Attempted(all, getLogs) == requested
  {
    assert acc + [] == acc;
    assert requested + [] == requested;
  }

  lemma PrependNothing<L>(x: Option<seq<L>>)
    ensures Prepend([], x) == x
  {
    if x.Some? {
      assert [] + x.value == x.value;
    }
  }

  /** fetchBuyLogs / fetchSellLogs: walk the windows from the deployment block, requesting
      each one's logs and appending them; a throwing call abandons the scan (None). */
  method FetchTradeLogs<L>(latestBlock: BlockNumber, getLogs: Window -> Option<seq<L>>)
    returns (logs: Option<seq<L>>, requested: seq<Window>)
    ensures latestBlock.NoClient? ==> logs == Some([]) && requested == []
    ensures latestBlock.Threw? ==> logs == None && requested == []
    ensures latestBlock.Latest? ==>
              && logs == Collect(Windows(DeploymentBlock, latestBlock.n, BatchSize), getLogs)
              && requested == Attempted(Windows(DeploymentBlock, latestBlock.n, BatchSize), getLogs)
  {
    match latestBlock
    case NoClient =>
      // `startBlock <= undefined` is false: no window, and the empty list is stored
      return Some([]), [];
    case Threw =>
      // the catch block: nothing requested, nothing stored
      return None, [];
    case Latest(latest) =>
      logs, requested := ScanWindows(latest, getLogs);
  }

  /** The batching loop itself, for a known latest block. */
  method ScanWindows<L>(latest: int, getLogs: Window -> Option<seq<L>>)
    returns (logs: Option<seq<L>>, requested: seq<Window>)
    ensures logs == Collect(Windows(DeploymentBlock, latest, BatchSize), getLogs)
    ensures requested == Attempted(Windows(DeploymentBlock, latest, BatchSize), getLogs)
  {
    ghost var all := Windows(DeploymentBlock, latest, BatchSize);
    var acc: seq<L> := [];
    requested := [];
    var startBlock := DeploymentBlock;
    ScanStart(latest, getLogs);
    while startBlock <= latest
      invariant ScanInv(all, acc, requested, startBlock, latest, getLogs)
      decreases latest - startBlock + 1
    {
      var endBlock := if startBlock + BatchSize - 1 > latest then latest else startBlock + BatchSize - 1;
      var w := Window(startBlock, endBlock);
      ScanStep(all, acc, requested, startBlock, latest, getLogs);
      var batch := getLogs(w);
      requested := requested + [w];
      if batch.None? {
        return None, requested;
      }
      acc := acc + batch.value;
      startBlock := startBlock + BatchSize;
    }
    ScanDone(all, acc, requested, startBlock, latest, getLogs);
    return Some(acc), requested;
  }

  /** mergeAndShuffle: the sells followed by the buys, shuffled in place by Fisher–Yates;
      `Math.random` is an arbitrary index in 0..i. */
  method MergeAndShuffle<L>(sellLogs: seq<L>, buyLogs: seq<L>) returns (trades: seq<L>)
    ensures |trades| == |sellLogs| + |buyLogs|
    ensures multiset(trades) == multiset(sellLogs + buyLogs)
  {
    var merged := sellLogs + buyLogs;
    var a := new L[|merged|](k requires 0 <= k < |merged| => merged[k]);
    assert a[..] == merged;
    var i := a.Length - 1;
    while i > 0
      invariant -1 <= i < a.Length
      invariant multiset(a[..]) == multiset(merged)
      decreases i
    {
      var randomIndex :| 0 <= randomIndex <= i;
      Swap(a, i, randomIndex);
      i := i - 1;
    }
    trades := a[..];
  }

  /** Exchanges two elements of an array in place, keeping its elements. */
  method Swap<L>(a: array<L>, i: int, j: int)
    requires 0 <= i < a.Length && 0 <= j < a.Length
    modifies a
    ensures a[..] == old(a[..])[i := old(a[j])][j := old(a[i])]
    ensures multiset(a[..]) == multiset(old(a[..]))
  {
    a[i], a[j] := a[j], a[i];
  }

  /** A decoded trade event: exactly one of buyer and seller is set by the contract. */
  datatype TradeArgs = TradeArgs(buyer: Option<string>, seller: Option<string>, amount: nat, totalPrice: nat)

  datatype Side = Buy | Sell

  datatype Row = Row(account: string, side: Side)

  /** One table row: the buyer's address, or the seller's when there is no buyer, shortened;
      "buy" exactly when a buyer is present. */
  function TradeRow(args: TradeArgs): (r: Row)
    ensures r.side == Buy <==> args.buyer.Some? && args.buyer.value != ""
    ensures r.side == Buy ==> r.account == TruncateWalletAddressDefault(args.buyer.value)
    ensures r.side == Sell ==> r.account == TruncateWalletAddressDefault(args.seller.GetOr(""))
    ensures r.account == "" <==> args.buyer.GetOr("") == "" && args.seller.GetOr("") == ""
  {
    var buyer := TruncateWalletAddressDefault(args.buyer.GetOr(""));
    var account := if buyer != "" then buyer else TruncateWalletAddressDefault(args.seller.GetOr(""));
    Row(account, if args.buyer.Some? && args.buyer.value != "" then Buy else Sell)
  }
}
