/** apps/web/lib/wallet-groups.ts, walletUsd: what one wallet is worth under a network scope. */
module WalletValue {
  import opened Basics
  import opened JsStrings
  import opened MultisetSums

  datatype Family = SOLANA | EVM

  datatype Wallet = Wallet(id: string, chain: Family, address: string, name: Option<string>,
                           backedUpAt: Option<string>, isImported: bool)

  datatype ChainSplit = ChainSplit(chain: string, native: real, usd: real)

  datatype Balance = Balance(usd: real, chains: Option<seq<ChainSplit>>, error: Option<string>)

  type Balances = map<string, Balance>

  function BalanceOf(balances: Balances, w: Wallet): Option<Balance> {
    if w.id in balances then Some(balances[w.id]) else None
  }

  function FindSlice(chains: seq<ChainSplit>, network: string): Option<ChainSplit> {
    if chains == [] then None
    else if chains[0].chain == network then Some(chains[0])
    else FindSlice(chains[1..], network)
  }

  function SliceUsd(chains: seq<ChainSplit>, network: string): real {
    var slice := FindSlice(chains, network);
    if slice.Some? then slice.value.usd else 0.0
  }

  function WalletUsd(bal: Option<Balance>, w: Wallet, network: string, isAll: bool): real {
    if bal.None? || Truthy(bal.value.error) then 0.0
    else if isAll then bal.value.usd
    else if w.chain == SOLANA then (if network == "solana" then bal.value.usd else 0.0)
    else if bal.value.chains.None? then 0.0
    else SliceUsd(bal.value.chains.value, network)
  }

  // ----- one network

  /** The first slice that names the network. */
  ghost predicate FirstOn(chains: seq<ChainSplit>, network: string, i: nat) {
    i < |chains| && chains[i].chain == network && forall j :: 0 <= j < i ==> chains[j].chain != network
  }

  /** A slice lookup gives the usd of the first slice that names the network, and 0 if none does. */
  lemma {:induction false} SliceUsdIs(chains: seq<ChainSplit>, network: string)
    ensures forall i: nat :: FirstOn(chains, network, i) ==> SliceUsd(chains, network) == chains[i].usd
    ensures (forall i :: 0 <= i < |chains| ==> chains[i].chain != network) ==> SliceUsd(chains, network) == 0.0
  {
    if chains != [] {
      var rest := chains[1..];
      SliceUsdIs(rest, network);
      forall i: nat | FirstOn(chains, network, i)
        ensures SliceUsd(chains, network) == chains[i].usd
      {
        if i > 0 {
          assert chains[0].chain != network && FirstOn(rest, network, i - 1);
        }
      }
    }
  }

  /** A balance that could be fetched. */
  ghost predicate Fetched(bal: Balance) {
    bal.error.None? || bal.error.value == ""
  }

  /**
   The figure of a wallet on one network: the usd of an EVM balance's slice that names it, or 0 if none does; all of a
   Solana balance on Solana and nothing elsewhere. A balance that failed is 0 on every network.
   */
  lemma WalletUsdOnNetwork(bal: Balance, w: Wallet, network: string)
    ensures !Fetched(bal) ==> WalletUsd(Some(bal), w, network, false) == 0.0
    ensures Fetched(bal) && w.chain == SOLANA ==>
              WalletUsd(Some(bal), w, network, false) == if network == "solana" then bal.usd else 0.0
    ensures Fetched(bal) && w.chain == EVM ==>
              forall i: nat :: FirstOn(Slices(bal), network, i) ==>
                WalletUsd(Some(bal), w, network, false) == Slices(bal)[i].usd
    ensures Fetched(bal) && w.chain == EVM && (forall s :: s in Slices(bal) ==> s.chain != network) ==>
              WalletUsd(Some(bal), w, network, false) == 0.0
    ensures WalletUsd(None, w, network, false) == 0.0
  {
    SliceUsdIs(Slices(bal), network);
    hide SliceUsd;
  }

  /** With distinct slices every one of them is the figure on its own network. */
  lemma EachSliceCounts(bal: Balance, w: Wallet, i: nat)
    requires Fetched(bal) && w.chain == EVM && bal.chains.Some?
    requires DistinctChains(bal.chains.value) && i < |bal.chains.value|
    ensures WalletUsd(Some(bal), w, bal.chains.value[i].chain, false) == bal.chains.value[i].usd
  {
    WalletUsdOnNetwork(bal, w, bal.chains.value[i].chain);
    assert FirstOn(Slices(bal), bal.chains.value[i].chain, i);
  }

  /** And the figure over all networks is the balance's usd. */
  lemma WalletUsdOverAll(bal: Balance, w: Wallet, network: string)
    ensures WalletUsd(Some(bal), w, network, true) == if Fetched(bal) then bal.usd else 0.0
    ensures WalletUsd(None, w, network, true) == 0.0
  {
  }

  // ----- the networks together

  ghost function Worth(balances: Balances, network: string, isAll: bool): Wallet -> real {
    w => WalletUsd(BalanceOf(balances, w), w, network, isAll)
  }

  /** One wallet on each network. */
  ghost function OnNetwork(balances: Balances, w: Wallet): string -> real {
    n => WalletUsd(BalanceOf(balances, w), w, n, false)
  }

  /** Each wallet on all the networks, one at a time. */
  ghost function OverNetworks(balances: Balances, networks: set<string>): Wallet -> real {
    w => SumOver(multiset(networks), OnNetwork(balances, w))
  }

  /** All the wallets on each network. */
  ghost function NetworkTotal(wallets: multiset<Wallet>, balances: Balances): string -> real {
    n => SumOver(wallets, Worth(balances, n, false))
  }

  ghost function SumOfSlices(chains: seq<ChainSplit>): real {
    if chains == [] then 0.0 else chains[0].usd + SumOfSlices(chains[1..])
  }

  ghost predicate DistinctChains(chains: seq<ChainSplit>) {
    forall i, j :: 0 <= i < j < |chains| ==> chains[i].chain != chains[j].chain
  }

  ghost predicate Covered(chains: seq<ChainSplit>, networks: set<string>) {
    forall i :: 0 <= i < |chains| ==> chains[i].chain in networks
  }

  ghost function SlicesOn(chains: seq<ChainSplit>): string -> real {
    n => SliceUsd(chains, n)
  }

  ghost function OnlyAt(network: string, usd: real): string -> real {
    n => if n == network then usd else 0.0
  }

  lemma SumOfOne(networks: set<string>, network: string, usd: real)
    requires network in networks
    ensures SumOver(multiset(networks), OnlyAt(network, usd)) == usd
  {
    var all := multiset(networks);
    SumTake(all, OnlyAt(network, usd), network);
    SumOfNothing(all - multiset{network}, OnlyAt(network, usd));
  }

  lemma {:induction false} NoSlice(chains: seq<ChainSplit>, network: string)
    requires forall i :: 0 <= i < |chains| ==> chains[i].chain != network
    ensures SliceUsd(chains, network) == 0.0
  {
    if chains != [] {
      NoSlice(chains[1..], network);
    }
  }

  /** Looked up network by network, distinct slices give their sum. */
  lemma {:induction false} SlicesAddUp(chains: seq<ChainSplit>, networks: set<string>)
    requires DistinctChains(chains) && Covered(chains, networks)
    ensures SumOver(multiset(networks), SlicesOn(chains)) == SumOfSlices(chains)
  {
    if chains == [] {
      SumOfNothing(multiset(networks), SlicesOn(chains));
    } else {
      var first, rest := chains[0], chains[1..];
      SlicesAddUp(rest, networks);
      NoSlice(rest, first.chain);
      SumOfOne(networks, first.chain, first.usd);
      SumOfFunctions(multiset(networks), OnlyAt(first.chain, first.usd), SlicesOn(rest), SlicesOn(chains));
    }
  }

  ghost function Slices(bal: Balance): seq<ChainSplit> {
    if bal.chains.Some? then bal.chains.value else []
  }

  /** The networks shown include Solana and every chain of the balance, each once in it. */
  ghost predicate Listed(bal: Option<Balance>, w: Wallet, networks: set<string>) {
    && (w.chain == SOLANA ==> "solana" in networks)
    && (w.chain == EVM && bal.Some? ==> DistinctChains(Slices(bal.value)) && Covered(Slices(bal.value), networks))
  }

  /** What is attributed to some network. */
  ghost function Attributed(bal: Option<Balance>, w: Wallet): real {
    if bal.None? || Truthy(bal.value.error) then 0.0
    else if w.chain == SOLANA then bal.value.usd
    else SumOfSlices(Slices(bal.value))
  }

  lemma NetworksOfWallet(balances: Balances, w: Wallet, networks: set<string>)
    requires Listed(BalanceOf(balances, w), w, networks)
    ensures OverNetworks(balances, networks)(w) == Attributed(BalanceOf(balances, w), w)
  {
    var all, bal := multiset(networks), BalanceOf(balances, w);
    if bal.None? || Truthy(bal.value.error) {
      SumOfNothing(all, OnNetwork(balances, w));
    } else if w.chain == SOLANA {
      SumOfOne(networks, "solana", bal.value.usd);
      SumSame(all, OnNetwork(balances, w), OnlyAt("solana", bal.value.usd));
    } else {
      SlicesAddUp(Slices(bal.value), networks);
      SumSame(all, OnNetwork(balances, w), SlicesOn(Slices(bal.value)));
    }
  }

  /** A wallet's single-network figures add up to its all-networks figure, exactly if what is attributed is its usd. */
  lemma WalletAddsUpIff(balances: Balances, w: Wallet, networks: set<string>)
    requires Listed(BalanceOf(balances, w), w, networks)
    ensures OverNetworks(balances, networks)(w) == Worth(balances, "", true)(w)
            <==> var bal := BalanceOf(balances, w);
                 w.chain == EVM && bal.Some? && !Truthy(bal.value.error) ==>
                   SumOfSlices(Slices(bal.value)) == bal.value.usd
  {
    NetworksOfWallet(balances, w, networks);
  }

  lemma {:induction false} SwapSums(wallets: multiset<Wallet>, balances: Balances, networks: set<string>)
    ensures SumOver(multiset(networks), NetworkTotal(wallets, balances)) ==
              SumOver(wallets, OverNetworks(balances, networks))
    decreases |wallets|
  {
    var all := multiset(networks);
    if wallets == multiset{} {
      SumOfNothing(all, NetworkTotal(wallets, balances));
    } else {
      var w :| w in wallets;
      var rest := wallets - multiset{w};
      SwapSums(rest, balances, networks);
      SumTake(wallets, OverNetworks(balances, networks), w);
      forall n | n in all
        ensures NetworkTotal(wallets, balances)(n) == OnNetwork(balances, w)(n) + NetworkTotal(rest, balances)(n)
      {
        SumTake(wallets, Worth(balances, n, false), w);
      }
      SumOfFunctions(all, OnNetwork(balances, w), NetworkTotal(rest, balances), NetworkTotal(wallets, balances));
    }
  }

  /**
   When each EVM balance's distinct slices add up to its usd, the single-network totals add up to the all-networks
   total.
   */
  lemma NetworkTotalsAddUp(wallets: multiset<Wallet>, balances: Balances, networks: set<string>, network: string)
    requires forall w :: w in wallets ==> Listed(BalanceOf(balances, w), w, networks)
    requires forall w :: w in wallets && w.chain == EVM && w.id in balances && !Truthy(balances[w.id].error) ==>
                           SumOfSlices(Slices(balances[w.id])) == balances[w.id].usd
    ensures SumOver(multiset(networks), NetworkTotal(wallets, balances)) ==
              SumOver(wallets, Worth(balances, network, true))
  {
    SwapSums(wallets, balances, networks);
    forall w | w in wallets
      ensures OverNetworks(balances, networks)(w) == Worth(balances, network, true)(w)
    {
      WalletAddsUpIff(balances, w, networks);
    }
    SumSame(wallets, OverNetworks(balances, networks), Worth(balances, network, true));
  }
}
