/** apps/web/lib/wallet-groups.ts, groupWallets: the sections of the wallets screen. */
module WalletGroups {
  import opened Basics
  import opened InsertionMaps
  import opened JsStrings
  import opened MultisetSums
  import opened SetNames
  import opened StableSort
  import opened WalletValue

  datatype GroupMode = ByChain | BySet | NoGrouping

  datatype WalletGroup = WalletGroup(
    key: string, title: string, chain: Option<string>, chains: seq<string>, wallets: seq<Wallet>,
    totalUsd: real, fundedCount: nat, needsBackup: bool)

  /** The balances and the network scope under which the screen shows them. */
  datatype View = View(balances: Balances, network: string, isAll: bool)

  // ----- one group

  function Usd(view: View, w: Wallet): real {
    WalletUsd(BalanceOf(view.balances, w), w, view.network, view.isAll)
  }

  ghost function UsdOf(view: View): Wallet -> real {
    w => Usd(view, w)
  }

  ghost function FundedIn(view: View): Wallet -> real {
    w => if Usd(view, w) > 0.0 then 1.0 else 0.0
  }

  predicate NeedsBackup(w: Wallet) {
    !Truthy(w.backedUpAt) && !w.isImported
  }

  datatype Holding = Holding(chain: string, usd: real)

  function PositiveSlices(chains: seq<ChainSplit>): seq<Holding> {
    if chains == [] then []
    else
      var last := chains[|chains| - 1];
      PositiveSlices(chains[..|chains| - 1]) + if last.native > 0.0 then [Holding(last.chain, last.usd)] else []
  }

  /** What a wallet holds, chain by chain, whatever the scope. */
  ghost function Holdings(view: View, w: Wallet): seq<Holding> {
    var bal := BalanceOf(view.balances, w);
    if bal.None? then []
    else if w.chain == SOLANA then (if bal.value.usd > 0.0 then [Holding("solana", bal.value.usd)] else [])
    else PositiveSlices(Slices(bal.value))
  }

  ghost function AllHoldings(view: View, members: seq<Wallet>): seq<Holding> {
    if members == [] then []
    else AllHoldings(view, members[..|members| - 1]) + Holdings(view, members[|members| - 1])
  }

  ghost function HeldOn(hs: seq<Holding>, chain: string): Option<real> {
    if hs == [] then None
    else
      var before, last := HeldOn(hs[..|hs| - 1], chain), hs[|hs| - 1];
      if last.chain != chain then before else Some((if before.Some? then before.value else 0.0) + last.usd)
  }

  /** chainValue holds exactly the holdings so far. */
  ghost predicate Tallied(chainValue: seq<Entry<real>>, hs: seq<Holding>) {
    DistinctKeys(chainValue) && forall c :: Get(chainValue, c) == HeldOn(hs, c)
  }

  function Credit(chainValue: seq<Entry<real>>, chain: string, usd: real): seq<Entry<real>> {
    var before := Get(chainValue, chain);
    Put(chainValue, chain, (if before.Some? then before.value else 0.0) + usd)
  }

  lemma CreditTallies(chainValue: seq<Entry<real>>, hs: seq<Holding>, h: Holding)
    requires Tallied(chainValue, hs)
    ensures Tallied(Credit(chainValue, h.chain, h.usd), hs + [h])
  {
    hide Get, Put;
    var before := Get(chainValue, h.chain);
    var value := (if before.Some? then before.value else 0.0) + h.usd;
    PutKeepsDistinct(chainValue, h.chain, value);
    assert (hs + [h])[..|hs|] == hs;
    forall c
      ensures Get(Credit(chainValue, h.chain, h.usd), c) == HeldOn(hs + [h], c)
    {
      PutThenGet(chainValue, h.chain, value, c);
    }
  }

  predicate Poorer(a: Entry<real>, b: Entry<real>) {
    b.value > a.value
  }

  function Names(entries: seq<Entry<real>>): seq<string> {
    seq(|entries|, i requires 0 <= i < |entries| => entries[i].key)
  }

  /** The held chains, each once, richest first. */
  ghost predicate RichestFirst(chains: seq<string>, hs: seq<Holding>) {
    && (forall i, j :: 0 <= i < j < |chains| ==> chains[i] != chains[j])
    && (forall c :: c in chains <==> HeldOn(hs, c).Some?)
    && (forall i, j :: 0 <= i < j < |chains| ==>
          HeldOn(hs, chains[i]).Some? && HeldOn(hs, chains[j]).Some?
          && HeldOn(hs, chains[i]).value >= HeldOn(hs, chains[j]).value)
  }

  function KeyOf(e: Entry<real>): string {
    e.key
  }

  lemma SortedNames(chainValue: seq<Entry<real>>, hs: seq<Holding>)
    requires Tallied(chainValue, hs)
    ensures RichestFirst(Names(Sort(chainValue, Poorer)), hs)
  {
    hide Get, HeldOn, Sort;
    var sorted := Sort(chainValue, Poorer);
    SortPermutes(chainValue, Poorer);
    SortOrders(chainValue, Poorer);
    assert Apart(chainValue, KeyOf);
    SortKeepsApart(chainValue, Poorer, KeyOf);
    forall i | 0 <= i < |sorted|
      ensures HeldOn(hs, sorted[i].key) == Some(sorted[i].value)
    {
      assert sorted[i] in multiset(chainValue);
      var j :| 0 <= j < |chainValue| && chainValue[j] == sorted[i];
      GetIsAt(chainValue, j);
    }
    var names := Names(sorted);
    forall c | HeldOn(hs, c).Some?
      ensures c in names
    {
      GetFinds(chainValue, c);
      var j :| 0 <= j < |chainValue| && chainValue[j].key == c;
      assert chainValue[j] in multiset(sorted);
      var i :| 0 <= i < |sorted| && sorted[i] == chainValue[j];
      assert names[i] == c;
    }
    forall i, j | 0 <= i < j < |names|
      ensures names[i] != names[j] && HeldOn(hs, names[i]).value >= HeldOn(hs, names[j]).value
    {
      assert KeyOf(sorted[i]) != KeyOf(sorted[j]);
      assert !Poorer(sorted[i], sorted[j]);
    }
  }

  /** What the members could hold, where they hold nothing. */
  ghost function Fallback(view: View, members: seq<Wallet>): seq<string> {
    (if exists w :: w in members && w.chain == SOLANA then ["solana"] else [])
    + (if exists w :: w in members && w.chain == EVM
       then [if !view.isAll && view.network != "solana" then view.network else "ethereum"] else [])
  }

  ghost predicate ChainsShown(chains: seq<string>, view: View, members: seq<Wallet>) {
    var hs := AllHoldings(view, members);
    if hs == [] then chains == Fallback(view, members) else RichestFirst(chains, hs)
  }

  /** The figures of a group are those of its wallets. */
  ghost predicate Describes(g: WalletGroup, view: View) {
    && g.totalUsd == SumOver(multiset(g.wallets), UsdOf(view))
    && g.fundedCount as real == SumOver(multiset(g.wallets), FundedIn(view))
    && (g.needsBackup <==>
          exists w :: w in g.wallets && (w.backedUpAt.None? || w.backedUpAt.value == "") && !w.isImported)
    && ChainsShown(g.chains, view, g.wallets)
  }

  lemma {:induction false} HeldIffSome(hs: seq<Holding>)
    ensures hs != [] ==> HeldOn(hs, hs[|hs| - 1].chain).Some?
    ensures hs == [] ==> forall c :: HeldOn(hs, c).None?
  {
  }

  lemma TalliedEmptyIff(chainValue: seq<Entry<real>>, hs: seq<Holding>)
    requires Tallied(chainValue, hs)
    ensures chainValue == [] <==> hs == []
  {
    HeldIffSome(hs);
    if chainValue != [] {
      assert Get(chainValue, chainValue[|chainValue| - 1].key).Some?;
    }
    if hs != [] {
      assert Get(chainValue, hs[|hs| - 1].chain).Some?;
    }
  }

  method CreditSlices(chainValue: seq<Entry<real>>, slices: seq<ChainSplit>, ghost hs: seq<Holding>)
    returns (more: seq<Entry<real>>)
    requires Tallied(chainValue, hs)
    ensures Tallied(more, hs + PositiveSlices(slices))
  {
    hide Tallied, Credit;
    more := chainValue;
    assert hs + PositiveSlices(slices[..0]) == hs;
    for n := 0 to |slices|
      invariant Tallied(more, hs + PositiveSlices(slices[..n]))
    {
      var c := slices[n];
      var so := hs + PositiveSlices(slices[..n]);
      assert slices[..n + 1][..n] == slices[..n];
      if c.native > 0.0 {
        CreditTallies(more, so, Holding(c.chain, c.usd));
        more := Credit(more, c.chain, c.usd);
      }
      assert hs + PositiveSlices(slices[..n + 1]) == if c.native > 0.0 then so + [Holding(c.chain, c.usd)] else so;
    }
    assert slices[..|slices|] == slices;
  }

  /** The loop of build: totals, counts and the holdings per chain. */
  method Tally(view: View, members: seq<Wallet>)
    returns (totalUsd: real, fundedCount: nat, needsBackup: bool, chainValue: seq<Entry<real>>, hasSolana: bool,
        hasEvm: bool)
    ensures totalUsd == SumOver(multiset(members), UsdOf(view))
    ensures fundedCount as real == SumOver(multiset(members), FundedIn(view))
    ensures needsBackup <==> exists w :: w in members && NeedsBackup(w)
    ensures Tallied(chainValue, AllHoldings(view, members))
    ensures hasSolana <==> exists w :: w in members && w.chain == SOLANA
    ensures hasEvm <==> exists w :: w in members && w.chain == EVM
  {
    hide *;
    totalUsd, fundedCount, needsBackup, chainValue, hasSolana, hasEvm := 0.0, 0, false, [], false, false;
    NothingTallied(view);
    assert members[..0] == [];
    for n := 0 to |members|
      invariant Summed(view, members[..n], totalUsd, fundedCount)
      invariant Flagged(members[..n], needsBackup, hasSolana, hasEvm)
      invariant Tallied(chainValue, AllHoldings(view, members[..n]))
    {
      var w := members[n];
      OneMoreMember(view, members, n);
      SummedNext(view, members[..n], totalUsd, fundedCount, w);
      FlaggedNext(members[..n], needsBackup, hasSolana, hasEvm, w);
      var bal := BalanceOf(view.balances, w);
      var usd := WalletUsd(bal, w, view.network, view.isAll);
      totalUsd := totalUsd + usd;
      if usd > 0.0 {
        fundedCount := fundedCount + 1;
      }
      if NeedsBackup(w) {
        needsBackup := true;
      }
      if w.chain == SOLANA {
        hasSolana := true;
      } else {
        hasEvm := true;
      }
      chainValue := CreditHoldings(view, w, chainValue, AllHoldings(view, members[..n]));
    }
    assert members[..|members|] == members;
    SummedAndFlagged(view, members, totalUsd, fundedCount, needsBackup, hasSolana, hasEvm);
  }

  ghost predicate Summed(view: View, members: seq<Wallet>, totalUsd: real, fundedCount: nat) {
    && totalUsd == SumOver(multiset(members), UsdOf(view))
    && fundedCount as real == SumOver(multiset(members), FundedIn(view))
  }

  ghost predicate Flagged(members: seq<Wallet>, needsBackup: bool, hasSolana: bool, hasEvm: bool) {
    && (needsBackup <==> exists w :: w in members && NeedsBackup(w))
    && (hasSolana <==> exists w :: w in members && w.chain == SOLANA)
    && (hasEvm <==> exists w :: w in members && w.chain == EVM)
  }

  lemma SummedAndFlagged(view: View, members: seq<Wallet>, totalUsd: real, fundedCount: nat,
                         needsBackup: bool, hasSolana: bool, hasEvm: bool)
    requires Summed(view, members, totalUsd, fundedCount) && Flagged(members, needsBackup, hasSolana, hasEvm)
    ensures totalUsd == SumOver(multiset(members), UsdOf(view))
    ensures fundedCount as real == SumOver(multiset(members), FundedIn(view))
    ensures needsBackup <==> exists w :: w in members && NeedsBackup(w)
    ensures hasSolana <==> exists w :: w in members && w.chain == SOLANA
    ensures hasEvm <==> exists w :: w in members && w.chain == EVM
  {
    hide SumOver, NeedsBackup;
  }

  lemma SummedNext(view: View, members: seq<Wallet>, totalUsd: real, fundedCount: nat, w: Wallet)
    requires Summed(view, members, totalUsd, fundedCount)
    ensures var usd := WalletUsd(BalanceOf(view.balances, w), w, view.network, view.isAll);
            Summed(view, members + [w], totalUsd + usd, if usd > 0.0 then fundedCount + 1 else fundedCount)
  {
    hide SumOver, WalletUsd;
    assert multiset(members + [w]) == multiset(members) + multiset{w};
    SumAdd(multiset(members), UsdOf(view), w);
    SumAdd(multiset(members), FundedIn(view), w);
  }

  lemma FlaggedNext(members: seq<Wallet>, needsBackup: bool, hasSolana: bool, hasEvm: bool, w: Wallet)
    requires Flagged(members, needsBackup, hasSolana, hasEvm)
    ensures Flagged(members + [w], needsBackup || NeedsBackup(w), hasSolana || w.chain == SOLANA,
                    hasEvm || w.chain != SOLANA)
  {
    hide NeedsBackup;
    assert forall v :: v in members + [w] <==> v in members || v == w;
  }

  method CreditHoldings(view: View, w: Wallet, chainValue: seq<Entry<real>>, ghost hs: seq<Holding>)
    returns (more: seq<Entry<real>>)
    requires Tallied(chainValue, hs)
    ensures Tallied(more, hs + Holdings(view, w))
  {
    hide Tallied, Credit;
    var bal := BalanceOf(view.balances, w);
    more := chainValue;
    assert hs + [] == hs;
    if w.chain == SOLANA {
      if bal.Some? && bal.value.usd > 0.0 {
        CreditTallies(more, hs, Holding("solana", bal.value.usd));
        more := Credit(more, "solana", bal.value.usd);
      }
    } else if bal.Some? && bal.value.chains.Some? {
      more := CreditSlices(more, bal.value.chains.value, hs);
    }
  }

  lemma NothingTallied(view: View)
    ensures Summed(view, [], 0.0, 0) && Flagged([], false, false, false) && Tallied([], AllHoldings(view, []))
  {
  }

  lemma NothingSummed(view: View)
    ensures SumOver(multiset{}, UsdOf(view)) == 0.0 && SumOver(multiset{}, FundedIn(view)) == 0.0
  {
  }

  lemma OneMoreMember(view: View, members: seq<Wallet>, n: nat)
    requires n < |members|
    ensures members[..n + 1] == members[..n] + [members[n]]
    ensures AllHoldings(view, members[..n + 1]) == AllHoldings(view, members[..n]) + Holdings(view, members[n])
  {
    hide Holdings;
    assert members[..n + 1][..n] == members[..n];
  }

  method Build(view: View, key: string, title: string, members: seq<Wallet>, chain: Option<string>)
    returns (g: WalletGroup)
    ensures g.key == key && g.title == title && g.chain == chain && g.wallets == members && Describes(g, view)
  {
    hide Tallied, RichestFirst, AllHoldings, SumOver, UsdOf, FundedIn, Sort, Names;
    var totalUsd, fundedCount, needsBackup, chainValue, hasSolana, hasEvm := Tally(view, members);
    ghost var hs := AllHoldings(view, members);
    SortedNames(chainValue, hs);
    TalliedEmptyIff(chainValue, hs);
    SortEmpty(chainValue);
    var chains := Names(Sort(chainValue, Poorer));
    if |chains| == 0 {
      if hasSolana {
        chains := chains + ["solana"];
      }
      if hasEvm {
        chains := chains + [if !view.isAll && view.network != "solana" then view.network else "ethereum"];
      }
    }
    g := WalletGroup(key, title, chain, chains, members, totalUsd, fundedCount, needsBackup);
  }

  lemma SortEmpty(entries: seq<Entry<real>>)
    ensures |Names(Sort(entries, Poorer))| == 0 <==> entries == []
  {
    SortPermutes(entries, Poorer);
    assert |multiset(entries)| == |multiset(Sort(entries, Poorer))|;
  }

  /** A chain is held exactly if a member has a positive Solana balance or a slice on it with native funds. */
  ghost predicate HoldsOn(view: View, w: Wallet, chain: string) {
    w.id in view.balances &&
    var bal := view.balances[w.id];
    if w.chain == SOLANA then chain == "solana" && bal.usd > 0.0
    else exists i :: 0 <= i < |Slices(bal)| && Slices(bal)[i].chain == chain && Slices(bal)[i].native > 0.0
  }

  lemma {:induction false} HeldOnAppend(hs: seq<Holding>, more: seq<Holding>, chain: string)
    ensures HeldOn(hs + more, chain).Some? <==> HeldOn(hs, chain).Some? || HeldOn(more, chain).Some?
    decreases |more|
  {
    if more == [] {
      assert hs + more == hs;
    } else {
      HeldOnAppend(hs, more[..|more| - 1], chain);
      assert (hs + more)[..|hs + more| - 1] == hs + more[..|more| - 1];
    }
  }

  lemma {:induction false} PositiveSlicesHeld(chains: seq<ChainSplit>, chain: string)
    ensures HeldOn(PositiveSlices(chains), chain).Some? <==>
            exists i :: 0 <= i < |chains| && chains[i].chain == chain && chains[i].native > 0.0
  {
    if chains != [] {
      var front, last := chains[..|chains| - 1], chains[|chains| - 1];
      PositiveSlicesHeld(front, chain);
      HeldOnAppend(PositiveSlices(front), if last.native > 0.0 then [Holding(last.chain, last.usd)] else [], chain);
      OneHeld(Holding(last.chain, last.usd), chain);
      assert forall i :: 0 <= i < |front| ==> front[i] == chains[i];
    }
  }

  lemma OneHeld(h: Holding, chain: string)
    ensures HeldOn([h], chain).Some? <==> h.chain == chain
  {
  }

  lemma HoldingsHeld(view: View, w: Wallet, chain: string)
    ensures HeldOn(Holdings(view, w), chain).Some? <==> HoldsOn(view, w, chain)
  {
    hide HeldOn, PositiveSlices;
    NoneHeld(chain);
    if w.id in view.balances {
      PositiveSlicesHeld(Slices(view.balances[w.id]), chain);
      OneHeld(Holding("solana", view.balances[w.id].usd), chain);
    }
  }

  lemma NoneHeld(chain: string)
    ensures HeldOn([], chain).None?
  {
  }

  lemma {:induction false} ChainIsHeldIff(view: View, members: seq<Wallet>, chain: string)
    ensures HeldOn(AllHoldings(view, members), chain).Some? <==>
            exists i :: 0 <= i < |members| && HoldsOn(view, members[i], chain)
  {
    hide HeldOn, Holdings, HoldsOn;
    NoneHeld(chain);
    if members != [] {
      var front, last := members[..|members| - 1], members[|members| - 1];
      ChainIsHeldIff(view, front, chain);
      HeldOnAppend(AllHoldings(view, front), Holdings(view, last), chain);
      HoldingsHeld(view, last, chain);
      assert forall i :: 0 <= i < |front| ==> front[i] == members[i];
    }
  }

  // ----- which group a wallet belongs to

  /** The sections of the screen. */
  datatype Section = Everything | Chain(family: Family) | Named(name: string) | Loose

  function SetOf(w: Wallet): string {
    var name := SetNameFromLabel(w.name);
    if name.Some? then name.value else "Ungrouped"
  }

  function WithName(wallets: seq<Wallet>, name: string): seq<Wallet> {
    if wallets == [] then []
    else
      var w := wallets[|wallets| - 1];
      WithName(wallets[..|wallets| - 1], name) + if SetOf(w) == name then [w] else []
  }

  /** A set needs a name of its own and at least two wallets. */
  ghost predicate IsSet(wallets: seq<Wallet>, name: string) {
    name != "Ungrouped" && |WithName(wallets, name)| >= 2
  }

  ghost function SectionOf(wallets: seq<Wallet>, mode: GroupMode, w: Wallet): Section {
    match mode
    case NoGrouping => Everything
    case ByChain => Chain(w.chain)
    case BySet => if IsSet(wallets, SetOf(w)) then Named(SetOf(w)) else Loose
  }

  /** The wallets of a section, in their order. */
  ghost function InSection(wallets: seq<Wallet>, all: seq<Wallet>, mode: GroupMode, section: Section): seq<Wallet> {
    if wallets == [] then []
    else
      var w := wallets[|wallets| - 1];
      InSection(wallets[..|wallets| - 1], all, mode, section) + if SectionOf(all, mode, w) == section then [w] else []
  }

  const LOOSE := "set:__loose"

  const CHAIN_TITLES: map<string, string> := map[
    "solana" := "Solana", "ethereum" := "Ethereum", "bsc" := "BNB Chain", "base" := "Base", "arbitrum" := "Arbitrum",
    "polygon" := "Polygon", "avalanche" := "Avalanche", "optimism" := "Optimism", "blast" := "Blast"]

  function ChainTitle(chain: string): string {
    if chain in CHAIN_TITLES then CHAIN_TITLES[chain] else chain
  }

  function SectionKey(section: Section): string {
    match section
    case Everything => "all"
    case Chain(family) => if family == SOLANA then "chain:solana" else "chain:evm"
    case Named(name) => "set:" + name
    case Loose => LOOSE
  }

  function SectionTitle(section: Section, view: View): string {
    match section
    case Everything => "All wallets"
    case Chain(family) => if family == SOLANA then "Solana"
                          else if !view.isAll && view.network != "solana" then ChainTitle(view.network) else "EVM"
    case Named(name) => name
    case Loose => "Ungrouped"
  }

  function SectionChain(section: Section, view: View): Option<string> {
    match section
    case Chain(family) => Some(if family == SOLANA then "solana"
                               else if !view.isAll && view.network != "solana" then view.network else "ethereum")
    case _ => None
  }

  /** The section that a group shows; no group is empty. */
  ghost function Shown(wallets: seq<Wallet>, mode: GroupMode): WalletGroup -> Section {
    (g: WalletGroup) => if g.wallets == [] then Loose else SectionOf(wallets, mode, g.wallets[0])
  }

  /** The group holds exactly the wallets of its section, in order except for the loose ones, with their figures. */
  ghost predicate Faithful(g: WalletGroup, wallets: seq<Wallet>, mode: GroupMode, view: View) {
    var section := Shown(wallets, mode)(g);
    && g.wallets != []
    && multiset(g.wallets) == multiset(InSection(wallets, wallets, mode, section))
    && (section != Loose ==> g.wallets == InSection(wallets, wallets, mode, section))
    && g.key == SectionKey(section) && g.title == SectionTitle(section, view) && g.chain == SectionChain(section, view)
    && Describes(g, view)
  }

  ghost function AllWallets(groups: seq<WalletGroup>): multiset<Wallet> {
    if groups == [] then multiset{}
    else AllWallets(groups[..|groups| - 1]) + multiset(groups[|groups| - 1].wallets)
  }

  ghost function TotalOf(groups: seq<WalletGroup>): real {
    if groups == [] then 0.0 else TotalOf(groups[..|groups| - 1]) + groups[|groups| - 1].totalUsd
  }

  ghost function FundedOf(groups: seq<WalletGroup>): nat {
    if groups == [] then 0 else FundedOf(groups[..|groups| - 1]) + groups[|groups| - 1].fundedCount
  }

  /**
   Every wallet is in exactly one group, every group is the whole of one section, no two groups show the same section.
   */
  ghost predicate Partition(groups: seq<WalletGroup>, wallets: seq<Wallet>, mode: GroupMode, view: View) {
    PartOf(groups, multiset(wallets), wallets, mode, view)
  }

  /** Groups of some of the sections, which hold the wallets covered. */
  ghost predicate PartOf(groups: seq<WalletGroup>, covered: multiset<Wallet>,
                         wallets: seq<Wallet>, mode: GroupMode, view: View) {
    && (forall i :: 0 <= i < |groups| ==> Faithful(groups[i], wallets, mode, view))
    && Apart(groups, Shown(wallets, mode))
    && AllWallets(groups) == covered
  }

  // ----- conservation

  /** The totals and the funded counts of a partition add up to the figures of the single wallets. */
  lemma {:induction false} TotalsAddUp(groups: seq<WalletGroup>, view: View)
    requires forall i :: 0 <= i < |groups| ==> Describes(groups[i], view)
    ensures TotalOf(groups) == SumOver(AllWallets(groups), UsdOf(view))
    ensures FundedOf(groups) as real == SumOver(AllWallets(groups), FundedIn(view))
  {
    hide SumOver, UsdOf, FundedIn, ChainsShown;
    if groups == [] {
      NothingSummed(view);
    } else {
      var front, g := groups[..|groups| - 1], groups[|groups| - 1];
      TotalsAddUp(front, view);
      SumUnion(AllWallets(front), multiset(g.wallets), UsdOf(view));
      SumUnion(AllWallets(front), multiset(g.wallets), FundedIn(view));
    }
  }

  /** Whatever the grouping, the groups add up to the same wallets. */
  lemma PartitionAddsUp(groups: seq<WalletGroup>, wallets: seq<Wallet>, mode: GroupMode, view: View)
    requires Partition(groups, wallets, mode, view)
    ensures TotalOf(groups) == SumOver(multiset(wallets), UsdOf(view))
    ensures FundedOf(groups) as real == SumOver(multiset(wallets), FundedIn(view))
  {
    hide SumOver, UsdOf, FundedIn, Describes, InSection;
    TotalsAddUp(groups, view);
  }

  // ----- the groups before they are sorted

  lemma {:induction false} InSectionHolds(wallets: seq<Wallet>, all: seq<Wallet>, mode: GroupMode, section: Section,
                                          w: Wallet)
    ensures multiset(InSection(wallets, all, mode, section))[w]
            == if SectionOf(all, mode, w) == section then multiset(wallets)[w] else 0
  {
    hide SectionOf;
    if wallets != [] {
      assert wallets == wallets[..|wallets| - 1] + [wallets[|wallets| - 1]];
      InSectionHolds(wallets[..|wallets| - 1], all, mode, section, w);
    }
  }

  /** What build returns for the wallets of a section is a faithful group of that section. */
  lemma BuiltFaithfully(g: WalletGroup, section: Section, wallets: seq<Wallet>, mode: GroupMode, view: View)
    requires g.wallets != [] && Describes(g, view)
    requires multiset(g.wallets) == multiset(InSection(wallets, wallets, mode, section))
    requires section != Loose ==> g.wallets == InSection(wallets, wallets, mode, section)
    requires g.key == SectionKey(section) && g.title == SectionTitle(section, view)
    requires g.chain == SectionChain(section, view)
    ensures Faithful(g, wallets, mode, view) && Shown(wallets, mode)(g) == section
  {
    hide InSection, SectionOf, SectionKey, SectionTitle, SectionChain, Describes;
    var w := g.wallets[0];
    assert w in multiset(g.wallets);
    InSectionHolds(wallets, wallets, mode, section, w);
  }

  lemma {:induction false} EverythingIn(wallets: seq<Wallet>, all: seq<Wallet>)
    ensures InSection(wallets, all, NoGrouping, Everything) == wallets
  {
    if wallets != [] {
      EverythingIn(wallets[..|wallets| - 1], all);
    }
  }

  method GroupFlat(wallets: seq<Wallet>, view: View) returns (groups: seq<WalletGroup>)
    requires wallets != []
    ensures Partition(groups, wallets, NoGrouping, view)
  {
    hide PartOf, Describes, InSection, SectionOf, Faithful, Shown;
    var g := Build(view, "all", "All wallets", wallets, None);
    EverythingIn(wallets, wallets);
    BuiltFaithfully(g, Everything, wallets, NoGrouping, view);
    NoGroups(wallets, NoGrouping, view);
    AddSection([], multiset{}, g, wallets, NoGrouping, view);
    assert multiset{} + multiset(wallets) == multiset(wallets) && [] + [g] == [g];
    groups := [g];
  }

  lemma AddGroup(groups: seq<WalletGroup>, g: WalletGroup)
    ensures AllWallets(groups + [g]) == AllWallets(groups) + multiset(g.wallets)
  {
    assert (groups + [g])[..|groups|] == groups;
  }

  lemma AddSection(groups: seq<WalletGroup>, covered: multiset<Wallet>, g: WalletGroup,
                   wallets: seq<Wallet>, mode: GroupMode, view: View)
    requires PartOf(groups, covered, wallets, mode, view) && Faithful(g, wallets, mode, view)
    requires forall i :: 0 <= i < |groups| ==> Shown(wallets, mode)(groups[i]) != Shown(wallets, mode)(g)
    ensures PartOf(groups + [g], covered + multiset(g.wallets), wallets, mode, view)
  {
    hide Faithful, Shown;
    AddGroup(groups, g);
  }

  /** wallets.filter(w => w.chain === family) */
  function OfFamily(wallets: seq<Wallet>, family: Family): seq<Wallet> {
    if wallets == [] then []
    else
      var w := wallets[|wallets| - 1];
      OfFamily(wallets[..|wallets| - 1], family) + if w.chain == family then [w] else []
  }

  lemma {:induction false} FamilyIn(wallets: seq<Wallet>, all: seq<Wallet>, family: Family)
    ensures InSection(wallets, all, ByChain, Chain(family)) == OfFamily(wallets, family)
  {
    if wallets != [] {
      FamilyIn(wallets[..|wallets| - 1], all, family);
    }
  }

  lemma {:induction false} FamiliesCover(wallets: seq<Wallet>)
    ensures multiset(OfFamily(wallets, SOLANA)) + multiset(OfFamily(wallets, EVM)) == multiset(wallets)
  {
    if wallets != [] {
      assert wallets == wallets[..|wallets| - 1] + [wallets[|wallets| - 1]];
      FamiliesCover(wallets[..|wallets| - 1]);
    }
  }

  method GroupByChain(wallets: seq<Wallet>, view: View) returns (groups: seq<WalletGroup>)
    ensures Partition(groups, wallets, ByChain, view)
  {
    hide PartOf, Describes, InSection, SectionOf, Faithful, OfFamily, ChainTitle, Shown;
    var solana := OfFamily(wallets, SOLANA);
    var evm := OfFamily(wallets, EVM);
    FamiliesCover(wallets);
    groups := [];
    NoGroups(wallets, ByChain, view);
    if |solana| > 0 {
      var g := Build(view, "chain:solana", "Solana", solana, Some("solana"));
      FamilyIn(wallets, wallets, SOLANA);
      BuiltFaithfully(g, Chain(SOLANA), wallets, ByChain, view);
      AddSection(groups, multiset{}, g, wallets, ByChain, view);
      groups := groups + [g];
    }
    assert multiset{} + multiset(solana) == multiset(solana);
    assert PartOf(groups, multiset(solana), wallets, ByChain, view);
    if |evm| > 0 {
      var scopedEvm := !view.isAll && view.network != "solana";
      var g := Build(view, "chain:evm", if scopedEvm then ChainTitle(view.network) else "EVM",
                     evm, Some(if scopedEvm then view.network else "ethereum"));
      FamilyIn(wallets, wallets, EVM);
      BuiltFaithfully(g, Chain(EVM), wallets, ByChain, view);
      AddSection(groups, multiset(solana), g, wallets, ByChain, view);
      groups := groups + [g];
    }
    assert evm == [] ==> multiset(solana) == multiset(wallets);
  }

  lemma NoGroups(wallets: seq<Wallet>, mode: GroupMode, view: View)
    ensures PartOf([], multiset{}, wallets, mode, view)
  {
  }

  /** All the wallets in the lists of a map. */
  ghost function Spread(m: seq<Entry<seq<Wallet>>>): multiset<Wallet> {
    if m == [] then multiset{} else Spread(m[..|m| - 1]) + multiset(m[|m| - 1].value)
  }

  lemma SpreadAppend(m: seq<Entry<seq<Wallet>>>, e: Entry<seq<Wallet>>)
    ensures Spread(m + [e]) == Spread(m) + multiset(e.value)
  {
    assert (m + [e])[..|m|] == m;
  }

  function Listed(m: seq<Entry<seq<Wallet>>>, name: string): seq<Wallet> {
    var list := Get(m, name);
    if list.Some? then list.value else []
  }

  lemma {:induction false} PutSpreads(m: seq<Entry<seq<Wallet>>>, name: string, w: Wallet)
    ensures Spread(Put(m, name, Listed(m, name) + [w])) == Spread(m) + multiset{w}
  {
    var list := Listed(m, name) + [w];
    if m == [] {
      SpreadAppend([], Entry(name, list));
      assert [] + [Entry(name, list)] == Put(m, name, list);
    } else {
      var front, last := m[..|m| - 1], m[|m| - 1];
      if last.key == name {
        assert Put(m, name, list) == front + [Entry(name, list)];
        SpreadAppend(front, Entry(name, list));
      } else if Get(front, name).Some? {
        PutSpreads(front, name, w);
        SpreadAppend(Put(front, name, list), last);
      } else {
        SpreadAppend(m, Entry(name, list));
      }
    }
  }

  /** Each name's list is the wallets of that name in their order, and together they are all the wallets. */
  ghost predicate Bucketed(bySet: seq<Entry<seq<Wallet>>>, wallets: seq<Wallet>) {
    && DistinctKeys(bySet)
    && (forall name :: Get(bySet, name) ==
          if WithName(wallets, name) == [] then None else Some(WithName(wallets, name)))
    && Spread(bySet) == multiset(wallets)
  }

  lemma WithNameAppend(wallets: seq<Wallet>, w: Wallet, name: string)
    ensures WithName(wallets + [w], name) ==
            if SetOf(w) == name then WithName(wallets, name) + [w] else WithName(wallets, name)
  {
    assert (wallets + [w])[..|wallets|] == wallets;
  }

  lemma BucketOne(bySet: seq<Entry<seq<Wallet>>>, wallets: seq<Wallet>, w: Wallet)
    requires Bucketed(bySet, wallets)
    ensures Bucketed(Put(bySet, SetOf(w), Listed(bySet, SetOf(w)) + [w]), wallets + [w])
  {
    hide Put, Spread, SetOf;
    var name := SetOf(w);
    var list := Listed(bySet, name) + [w];
    PutKeepsDistinct(bySet, name, list);
    PutSpreads(bySet, name, w);
    hide Get, WithName;
    assert Listed(bySet, name) == WithName(wallets, name);
    forall k
      ensures var more := Put(bySet, name, list);
              Get(more, k) == if WithName(wallets + [w], k) == [] then None else Some(WithName(wallets + [w], k))
    {
      PutThenGet(bySet, name, list, k);
      assert Get(bySet, k) == if WithName(wallets, k) == [] then None else Some(WithName(wallets, k));
      WithNameAppend(wallets, w, k);
    }
  }

  method SplitBySet(wallets: seq<Wallet>) returns (bySet: seq<Entry<seq<Wallet>>>)
    ensures Bucketed(bySet, wallets)
  {
    hide Bucketed, SetOf;
    bySet := [];
    assert Bucketed([], wallets[..0]) by {
      NothingBucketed();
    }
    for n := 0 to |wallets|
      invariant Bucketed(bySet, wallets[..n])
    {
      var w := wallets[n];
      var name := SetOf(w);
      assert wallets[..n + 1] == wallets[..n] + [w];
      BucketOne(bySet, wallets[..n], w);
      bySet := Put(bySet, name, Listed(bySet, name) + [w]);
    }
    assert wallets[..|wallets|] == wallets;
  }

  lemma NothingBucketed()
    ensures Bucketed([], [])
  {
  }

  lemma {:induction false} WithNameIs(wallets: seq<Wallet>, name: string)
    ensures forall w :: w in WithName(wallets, name) ==> SetOf(w) == name
  {
    hide SetOf;
    if wallets != [] {
      WithNameIs(wallets[..|wallets| - 1], name);
    }
  }

  lemma {:induction false} NamedIn(wallets: seq<Wallet>, all: seq<Wallet>, name: string)
    requires IsSet(all, name)
    ensures InSection(wallets, all, BySet, Named(name)) == WithName(wallets, name)
  {
    hide SetOf, IsSet;
    if wallets != [] {
      NamedIn(wallets[..|wallets| - 1], all, name);
    }
  }

  /** The lists that are sets, and the wallets of all the others. */
  ghost predicate Sifted(named: seq<Entry<seq<Wallet>>>, loose: seq<Wallet>, wallets: seq<Wallet>) {
    && DistinctKeys(named)
    && (forall i :: 0 <= i < |named| ==>
          IsSet(wallets, named[i].key) && named[i].value == WithName(wallets, named[i].key))
    && (forall w :: w in loose ==> !IsSet(wallets, SetOf(w)))
  }

  method Sift(bySet: seq<Entry<seq<Wallet>>>, wallets: seq<Wallet>)
    returns (named: seq<Entry<seq<Wallet>>>, loose: seq<Wallet>)
    requires Bucketed(bySet, wallets)
    ensures Sifted(named, loose, wallets)
    ensures multiset(loose) + Spread(named) == multiset(wallets)
  {
    hide WithName, SetOf, Get, Spread;
    named, loose := [], [];
    assert multiset(loose) + Spread(named) == Spread(bySet[..0]);
    for n := 0 to |bySet|
      invariant Sifted(named, loose, wallets)
      invariant forall i :: 0 <= i < |named| ==> forall j :: n <= j < |bySet| ==> named[i].key != bySet[j].key
      invariant multiset(loose) + Spread(named) == Spread(bySet[..n])
    {
      var name, members := bySet[n].key, bySet[n].value;
      GetIsAt(bySet, n);
      WithNameIs(wallets, name);
      assert bySet[..n + 1] == bySet[..n] + [bySet[n]];
      SpreadAppend(bySet[..n], bySet[n]);
      if name == "Ungrouped" || |members| < 2 {
        loose := loose + members;
      } else {
        SpreadAppend(named, bySet[n]);
        named := named + [bySet[n]];
      }
    }
    assert bySet[..|bySet|] == bySet;
  }

  method BuildSets(named: seq<Entry<seq<Wallet>>>, wallets: seq<Wallet>, view: View) returns (groups: seq<WalletGroup>)
    requires Sifted(named, [], wallets)
    ensures |groups| == |named| && PartOf(groups, Spread(named), wallets, BySet, view)
    ensures forall i :: 0 <= i < |groups| ==> Shown(wallets, BySet)(groups[i]) == Named(named[i].key)
  {
    hide PartOf, Describes, InSection, SectionOf, Faithful, Shown, SetOf, WithName, Spread;
    groups := [];
    NoGroups(wallets, BySet, view);
    SpreadNone(named);
    for n := 0 to |named|
      invariant |groups| == n && PartOf(groups, Spread(named[..n]), wallets, BySet, view)
      invariant forall i :: 0 <= i < |groups| ==> Shown(wallets, BySet)(groups[i]) == Named(named[i].key)
    {
      var name, members := named[n].key, named[n].value;
      var g := Build(view, "set:" + name, name, members, None);
      NamedIn(wallets, wallets, name);
      BuiltFaithfully(g, Named(name), wallets, BySet, view);
      assert named[..n + 1] == named[..n] + [named[n]];
      SpreadAppend(named[..n], named[n]);
      AddSection(groups, Spread(named[..n]), g, wallets, BySet, view);
      groups := groups + [g];
    }
    assert named[..|named|] == named;
  }

  lemma SpreadNone(m: seq<Entry<seq<Wallet>>>)
    ensures Spread(m[..0]) == multiset{}
  {
  }

  lemma {:induction false} SpreadIsNamed(named: seq<Entry<seq<Wallet>>>, wallets: seq<Wallet>, w: Wallet)
    requires forall i :: 0 <= i < |named| ==>
               IsSet(wallets, named[i].key) && named[i].value == WithName(wallets, named[i].key)
    requires w in Spread(named)
    ensures IsSet(wallets, SetOf(w))
  {
    hide SetOf, IsSet, WithName;
    var last := named[|named| - 1];
    if w in last.value {
      WithNameIs(wallets, last.key);
    } else {
      SpreadIsNamed(named[..|named| - 1], wallets, w);
    }
  }

  /** What was sifted out is the loose section. */
  lemma LooseIn(named: seq<Entry<seq<Wallet>>>, loose: seq<Wallet>, wallets: seq<Wallet>)
    requires Sifted(named, loose, wallets)
    requires multiset(loose) + Spread(named) == multiset(wallets)
    ensures multiset(loose) == multiset(InSection(wallets, wallets, BySet, Loose))
  {
    hide SetOf, IsSet, WithName, Spread, InSection;
    forall w
      ensures multiset(loose)[w] == multiset(InSection(wallets, wallets, BySet, Loose))[w]
    {
      InSectionHolds(wallets, wallets, BySet, Loose, w);
      assert (multiset(loose) + Spread(named))[w] == multiset(wallets)[w];
      if w in Spread(named) {
        SpreadIsNamed(named, wallets, w);
      }
    }
  }

  method GroupBySet(wallets: seq<Wallet>, view: View) returns (groups: seq<WalletGroup>)
    ensures Partition(groups, wallets, BySet, view)
  {
    hide PartOf, Describes, InSection, SectionOf, Faithful, Shown, SetOf, WithName, IsSet, Spread, Bucketed;
    var bySet := SplitBySet(wallets);
    var named, loose := Sift(bySet, wallets);
    LooseIn(named, loose, wallets);
    groups := BuildSets(named, wallets, view);
    if |loose| > 0 {
      var g := Build(view, LOOSE, "Ungrouped", loose, None);
      BuiltFaithfully(g, Loose, wallets, BySet, view);
      AddSection(groups, Spread(named), g, wallets, BySet, view);
      groups := groups + [g];
    }
    assert Spread(named) + multiset(loose) == multiset(wallets);
    assert loose == [] ==> Spread(named) == multiset(wallets);
  }

  // ----- the order

  /** The comparison returns a positive number: a comes after b. compare is String.prototype.localeCompare. */
  predicate ComesAfter(a: WalletGroup, b: WalletGroup, compare: (string, string) -> int) {
    if a.key == LOOSE then true
    else if b.key == LOOSE then false
    else if b.totalUsd != a.totalUsd then b.totalUsd > a.totalUsd
    else compare(a.title, b.title) > 0
  }

  function After(compare: (string, string) -> int): (WalletGroup, WalletGroup) -> bool {
    (a: WalletGroup, b: WalletGroup) => ComesAfter(a, b, compare)
  }

  ghost predicate Collation(compare: (string, string) -> int) {
    && (forall s, t :: compare(s, t) > 0 ==> compare(t, s) <= 0)
    && (forall s, t, u :: compare(s, t) <= 0 && compare(t, u) <= 0 ==> compare(s, u) <= 0)
  }

  ghost predicate Precedes(a: WalletGroup, b: WalletGroup, compare: (string, string) -> int) {
    && a.key != LOOSE
    && (b.key == LOOSE || a.totalUsd > b.totalUsd || (a.totalUsd == b.totalUsd && compare(a.title, b.title) <= 0))
  }

  /** Richest first, equal totals by title, the loose group last. */
  ghost predicate Ranked(groups: seq<WalletGroup>, compare: (string, string) -> int) {
    forall i, j :: 0 <= i < j < |groups| ==> Precedes(groups[i], groups[j], compare)
  }

  /** The comparison, made consistent for two groups that both have the loose key. */
  ghost predicate ProperlyComesAfter(a: WalletGroup, b: WalletGroup, compare: (string, string) -> int) {
    !(a.key == LOOSE && b.key == LOOSE) && ComesAfter(a, b, compare)
  }

  ghost function ProperlyAfter(compare: (string, string) -> int): (WalletGroup, WalletGroup) -> bool {
    (a: WalletGroup, b: WalletGroup) => ProperlyComesAfter(a, b, compare)
  }

  lemma ProperlyIsConsistent(a: WalletGroup, b: WalletGroup, c: WalletGroup, compare: (string, string) -> int)
    requires Collation(compare)
    ensures ProperlyComesAfter(a, b, compare) ==> !ProperlyComesAfter(b, a, compare)
    ensures !ProperlyComesAfter(a, b, compare) && !ProperlyComesAfter(b, c, compare) ==>
              !ProperlyComesAfter(a, c, compare)
  {
    assert compare(a.title, b.title) <= 0 && compare(b.title, c.title) <= 0 ==> compare(a.title, c.title) <= 0;
  }

  ghost function GroupKey(): WalletGroup -> string {
    (g: WalletGroup) => g.key
  }

  lemma ProperlyAfterIsConsistent(compare: (string, string) -> int)
    requires Collation(compare)
    ensures Consistent(ProperlyAfter(compare))
  {
    hide ProperlyComesAfter;
    forall a, b, c {
      ProperlyIsConsistent(a, b, c, compare);
    }
  }

  lemma SortRanks(groups: seq<WalletGroup>, compare: (string, string) -> int)
    requires Collation(compare) && Apart(groups, GroupKey())
    ensures Ranked(Sort(groups, After(compare)), compare)
  {
    hide Sort, Collation;
    forall i, j | 0 <= i < j < |groups|
      ensures After(compare)(groups[i], groups[j]) == ProperlyAfter(compare)(groups[i], groups[j])
    {
      assert GroupKey()(groups[i]) != GroupKey()(groups[j]);
    }
    SortAgrees(groups, After(compare), ProperlyAfter(compare));
    ProperlyAfterIsConsistent(compare);
    SortOrders(groups, ProperlyAfter(compare));
    SortKeepsApart(groups, After(compare), GroupKey());
    var sorted := Sort(groups, After(compare));
    hide Consistent;
    forall i, j | 0 <= i < j < |sorted|
      ensures Precedes(sorted[i], sorted[j], compare)
    {
      assert GroupKey()(sorted[i]) != GroupKey()(sorted[j]);
      assert !ProperlyAfter(compare)(sorted[i], sorted[j]);
    }
  }

  lemma {:induction false} InsertKeepsWallets(sorted: seq<WalletGroup>, g: WalletGroup,
                                              after: (WalletGroup, WalletGroup) -> bool)
    ensures AllWallets(Insert(sorted, g, after)) == AllWallets(sorted) + multiset(g.wallets)
  {
    if sorted == [] || !after(sorted[|sorted| - 1], g) {
      AddGroup(sorted, g);
    } else {
      InsertKeepsWallets(sorted[..|sorted| - 1], g, after);
      AddGroup(Insert(sorted[..|sorted| - 1], g, after), sorted[|sorted| - 1]);
    }
  }

  lemma {:induction false} SortKeepsWallets(groups: seq<WalletGroup>, after: (WalletGroup, WalletGroup) -> bool)
    ensures AllWallets(Sort(groups, after)) == AllWallets(groups)
  {
    if groups != [] {
      SortKeepsWallets(groups[..|groups| - 1], after);
      InsertKeepsWallets(Sort(groups[..|groups| - 1], after), groups[|groups| - 1], after);
    }
  }

  lemma SortKeepsPartition(groups: seq<WalletGroup>, after: (WalletGroup, WalletGroup) -> bool,
                           wallets: seq<Wallet>, mode: GroupMode, view: View)
    requires Partition(groups, wallets, mode, view)
    ensures Partition(Sort(groups, after), wallets, mode, view)
  {
    hide Sort, Faithful, Shown, AllWallets;
    SortPermutes(groups, after);
    SortKeepsApart(groups, after, Shown(wallets, mode));
    SortKeepsWallets(groups, after);
    var sorted := Sort(groups, after);
    forall i | 0 <= i < |sorted|
      ensures Faithful(sorted[i], wallets, mode, view)
    {
      assert sorted[i] in multiset(groups);
    }
  }

  /** Two sections share a key only if one is the loose section and the other a set called "__loose". */
  lemma KeysCollideOnlyOnLoose(a: Section, b: Section)
    requires a != b && SectionKey(a) == SectionKey(b)
    ensures (a.Loose? && b.Named? && b.name == "__loose") || (b.Loose? && a.Named? && a.name == "__loose")
  {
    hide SectionKey;
    SectionKeyTells(a);
    SectionKeyTells(b);
  }

  /** What can be read off a key. */
  lemma SectionKeyTells(s: Section)
    ensures var k := SectionKey(s);
            match s
            case Everything => |k| == 3
            case Chain(family) => |k| > 4 && k[0] == 'c' && |k| == if family == SOLANA then 12 else 9
            case Named(name) => |k| >= 4 && k[0] == 's' && k[4..] == name
            case Loose => |k| >= 4 && k[0] == 's' && k[4..] == "__loose"
  {
    if s.Named? {
      SetKey(s.name);
    }
    assert LOOSE[4..] == "__loose";
  }

  lemma SetKey(name: string)
    ensures SectionKey(Named(name))[0] == 's' && SectionKey(Named(name))[4..] == name
  {
  }

  /** No set called "__loose" beside loose wallets. */
  ghost predicate NoClash(wallets: seq<Wallet>, mode: GroupMode) {
    mode == BySet && IsSet(wallets, "__loose") ==> InSection(wallets, wallets, mode, Loose) == []
  }

  lemma {:induction false} InSomeGroup(groups: seq<WalletGroup>, w: Wallet) returns (i: nat)
    requires w in AllWallets(groups)
    ensures i < |groups| && w in groups[i].wallets
  {
    if w in groups[|groups| - 1].wallets {
      i := |groups| - 1;
    } else {
      i := InSomeGroup(groups[..|groups| - 1], w);
    }
  }

  /** Every section that has a wallet has its group. */
  lemma SectionIsShown(groups: seq<WalletGroup>, wallets: seq<Wallet>, mode: GroupMode, view: View, section: Section)
    returns (i: nat)
    requires Partition(groups, wallets, mode, view) && InSection(wallets, wallets, mode, section) != []
    ensures i < |groups| && Shown(wallets, mode)(groups[i]) == section
    ensures groups[i].key == SectionKey(section)
  {
    hide InSection, SectionOf, Shown, AllWallets, Describes, SectionKey, SectionTitle, SectionChain;
    var w := InSection(wallets, wallets, mode, section)[0];
    assert w in multiset(InSection(wallets, wallets, mode, section));
    InSectionHolds(wallets, wallets, mode, section, w);
    i := InSomeGroup(groups, w);
    assert Faithful(groups[i], wallets, mode, view);
    assert w in multiset(groups[i].wallets);
    InSectionHolds(wallets, wallets, mode, Shown(wallets, mode)(groups[i]), w);
  }

  lemma ShownIsUsed(g: WalletGroup, wallets: seq<Wallet>, mode: GroupMode, view: View)
    requires Faithful(g, wallets, mode, view)
    ensures var section := Shown(wallets, mode)(g);
            && g.key == SectionKey(section) && InSection(wallets, wallets, mode, section) != []
            && (section == Loose ==> mode == BySet)
            && (section == Named("__loose") ==> mode == BySet && IsSet(wallets, "__loose"))
  {
    hide InSection, IsSet, Describes, SectionKey, SectionTitle, SectionChain;
    assert |multiset(g.wallets)| > 0;
  }

  /** The groups of a partition have different keys, exactly if no set called "__loose" stands beside loose wallets. */
  lemma KeysAreApartIff(groups: seq<WalletGroup>, wallets: seq<Wallet>, mode: GroupMode, view: View)
    requires Partition(groups, wallets, mode, view)
    ensures Apart(groups, GroupKey()) <==> NoClash(wallets, mode)
  {
    hide Faithful, InSection, IsSet, Shown, SectionKey, AllWallets;
    if NoClash(wallets, mode) {
      forall i, j | 0 <= i < j < |groups|
        ensures groups[i].key != groups[j].key
      {
        ShownIsUsed(groups[i], wallets, mode, view);
        ShownIsUsed(groups[j], wallets, mode, view);
        if groups[i].key == groups[j].key {
          KeysCollideOnlyOnLoose(Shown(wallets, mode)(groups[i]), Shown(wallets, mode)(groups[j]));
        }
      }
    } else {
      var i, j := ClashingGroups(groups, wallets, mode, view);
      assert GroupKey()(groups[i]) == GroupKey()(groups[j]);
    }
  }

  lemma LooseKeys()
    ensures SectionKey(Named("__loose")) == SectionKey(Loose) == LOOSE
  {
  }

  /** A clash leaves two groups with the loose key. */
  lemma ClashingGroups(groups: seq<WalletGroup>, wallets: seq<Wallet>, mode: GroupMode, view: View)
    returns (i: nat, j: nat)
    requires Partition(groups, wallets, mode, view) && !NoClash(wallets, mode)
    ensures i < j < |groups| && groups[i].key == groups[j].key == LOOSE
  {
    hide Partition, InSection, WithName, Shown, SectionKey;
    NamedIn(wallets, wallets, "__loose");
    i := SectionIsShown(groups, wallets, mode, view, Loose);
    j := SectionIsShown(groups, wallets, mode, view, Named("__loose"));
    LooseKeys();
    if j < i {
      i, j := j, i;
    }
  }

  /** Both belong last, so there is no ranking. */
  lemma ClashIsNotRanked(groups: seq<WalletGroup>, wallets: seq<Wallet>, mode: GroupMode, view: View,
                         compare: (string, string) -> int)
    requires Partition(groups, wallets, mode, view) && !NoClash(wallets, mode)
    ensures !Ranked(groups, compare)
  {
    hide Partition, NoClash;
    var i, j := ClashingGroups(groups, wallets, mode, view);
    assert !Precedes(groups[i], groups[j], compare);
  }

  lemma LooseLabel(w: Wallet, d: string)
    requires w.name == Some(Numbered("__loose", d)) && Digits(d)
    ensures SetOf(w) == "__loose"
  {
    hide SetNameFromLabel, Numbered, Prefix;
    PrefixIsKeptIff("__loose");
    NumberedLabel("__loose", d);
  }

  lemma ThreeNames(a: Wallet, b: Wallet, c: Wallet)
    requires SetOf(a) == SetOf(b) == "__loose"
    ensures |WithName([a, b, c], "__loose")| >= 2
  {
    hide SetOf;
    WithNameAppend([], a, "__loose");
    WithNameAppend([a], b, "__loose");
    WithNameAppend([a, b], c, "__loose");
    assert [] + [a] == [a] && [a] + [b] == [a, b] && [a, b] + [c] == [a, b, c];
  }

  /** Such sets exist: two wallets labelled "__loose 1" and "__loose 2" beside an unlabelled one. */
  lemma KeysCanClash(a: Wallet, b: Wallet, c: Wallet)
    requires a.name == Some(Numbered("__loose", "1")) && b.name == Some(Numbered("__loose", "2")) && c.name == None
    ensures !NoClash([a, b, c], BySet)
  {
    hide SetNameFromLabel, SetOf, WithName, InSection, Numbered;
    LooseLabel(a, "1");
    LooseLabel(b, "2");
    ThreeNames(a, b, c);
    NoLabel(c);
    InSectionHolds([a, b, c], [a, b, c], BySet, Loose, c);
    assert c in multiset([a, b, c]);
  }

  lemma NoLabel(w: Wallet)
    requires w.name.None?
    ensures SetOf(w) == "Ungrouped"
  {
  }

  /** The screen: a partition of the wallets, ranked. */
  method GroupWallets(wallets: seq<Wallet>, view: View, mode: GroupMode, compare: (string, string) -> int)
    returns (groups: seq<WalletGroup>)
    requires Collation(compare)
    ensures Partition(groups, wallets, mode, view)
    ensures TotalOf(groups) == SumOver(multiset(wallets), UsdOf(view))
    ensures FundedOf(groups) as real == SumOver(multiset(wallets), FundedIn(view))
    ensures Ranked(groups, compare) <==> NoClash(wallets, mode)
  {
    hide Partition, NoClash, Ranked, Collation, TotalOf, FundedOf, SumOver;
    if |wallets| == 0 {
      assert wallets == [];
      groups := [];
      NothingShown(mode, view, compare);
    } else {
      if mode == NoGrouping {
        groups := GroupFlat(wallets, view);
      } else if mode == ByChain {
        groups := GroupByChain(wallets, view);
      } else {
        groups := GroupBySet(wallets, view);
      }
      KeysAreApartIff(groups, wallets, mode, view);
      if NoClash(wallets, mode) {
        SortRanks(groups, compare);
      }
      SortKeepsPartition(groups, After(compare), wallets, mode, view);
      groups := Sort(groups, After(compare));
      if !NoClash(wallets, mode) {
        ClashIsNotRanked(groups, wallets, mode, view, compare);
      }
    }
    PartitionAddsUp(groups, wallets, mode, view);
  }

  lemma NothingShown(mode: GroupMode, view: View, compare: (string, string) -> int)
    ensures Partition([], [], mode, view) && Ranked([], compare) && NoClash([], mode)
  {
  }

  // ----- the networks

  /** What a wallet has on one network, written out from its balance. */
  ghost predicate HasOn(balances: Balances, w: Wallet, network: string, usd: real) {
    if w.id !in balances || !Fetched(balances[w.id]) then usd == 0.0
    else if w.chain == SOLANA then usd == if network == "solana" then balances[w.id].usd else 0.0
    else
      var chains := Slices(balances[w.id]);
      if i: nat :| FirstOn(chains, network, i) then usd == chains[i].usd else usd == 0.0
  }

  lemma FirstOnIfAny(chains: seq<ChainSplit>, network: string, i: nat)
    requires i < |chains| && chains[i].chain == network
    ensures exists j: nat :: FirstOn(chains, network, j)
    decreases i
  {
    if j :| 0 <= j < i && chains[j].chain == network {
      FirstOnIfAny(chains, network, j);
    } else {
      assert FirstOn(chains, network, i);
    }
  }

  lemma UsdIsOnNetwork(view: View, w: Wallet)
    requires !view.isAll
    ensures HasOn(view.balances, w, view.network, Usd(view, w))
  {
    hide WalletUsd, FirstOn;
    if w.id in view.balances {
      var bal := view.balances[w.id];
      WalletUsdOnNetwork(bal, w, view.network);
      if s :| s in Slices(bal) && s.chain == view.network {
        var i :| 0 <= i < |Slices(bal)| && Slices(bal)[i] == s;
        FirstOnIfAny(Slices(bal), view.network, i);
      }
    } else {
      MissingBalance(view, w);
    }
  }

  lemma MissingBalance(view: View, w: Wallet)
    requires w.id !in view.balances
    ensures Usd(view, w) == 0.0
  {
  }

  ghost function OneIfPositive(figure: Wallet -> real): Wallet -> real {
    w => if figure(w) > 0.0 then 1.0 else 0.0
  }

  /** Under one network the groups total what their wallets have on it, wallet by wallet. */
  lemma TotalsOnOneNetwork(groups: seq<WalletGroup>, wallets: seq<Wallet>, mode: GroupMode, view: View,
                           figure: Wallet -> real)
    requires Partition(groups, wallets, mode, view) && !view.isAll
    requires forall w :: w in wallets ==> HasOn(view.balances, w, view.network, figure(w))
    ensures TotalOf(groups) == SumOver(multiset(wallets), figure)
    ensures FundedOf(groups) as real == SumOver(multiset(wallets), OneIfPositive(figure))
    ensures forall g :: g in groups ==> g.totalUsd == SumOver(multiset(g.wallets), figure)
  {
    hide HasOn, SumOver, TotalOf, FundedOf, Usd, Partition;
    PartitionAddsUp(groups, wallets, mode, view);
    forall w | w in wallets
      ensures UsdOf(view)(w) == figure(w)
    {
      UsdIsOnNetwork(view, w);
      HasOneFigure(view.balances, w, view.network, Usd(view, w), figure(w));
    }
    SumSame(multiset(wallets), UsdOf(view), figure);
    SumSame(multiset(wallets), FundedIn(view), OneIfPositive(figure));
    forall g | g in groups
      ensures g.totalUsd == SumOver(multiset(g.wallets), figure)
    {
      var i :| 0 <= i < |groups| && groups[i] == g;
      MembersAreWallets(groups, wallets, mode, view, i);
      SumSame(multiset(g.wallets), UsdOf(view), figure);
    }
  }

  lemma HasOneFigure(balances: Balances, w: Wallet, network: string, x: real, y: real)
    requires HasOn(balances, w, network, x) && HasOn(balances, w, network, y)
    ensures x == y
  {
  }

  lemma MembersAreWallets(groups: seq<WalletGroup>, wallets: seq<Wallet>, mode: GroupMode, view: View, i: nat)
    requires Partition(groups, wallets, mode, view) && i < |groups|
    ensures groups[i].totalUsd == SumOver(multiset(groups[i].wallets), UsdOf(view))
    ensures forall w :: w in groups[i].wallets ==> w in wallets
  {
    hide InSection, SumOver, ChainsShown, SectionOf;
    assert Faithful(groups[i], wallets, mode, view);
    forall w | w in groups[i].wallets
      ensures w in wallets
    {
      assert w in multiset(groups[i].wallets);
      InSectionHolds(wallets, wallets, mode, Shown(wallets, mode)(groups[i]), w);
      assert w in multiset(wallets);
    }
  }

  ghost function TotalOn(groupsOn: string -> seq<WalletGroup>): string -> real {
    n => TotalOf(groupsOn(n))
  }

  /**
   When each EVM balance's distinct slices add up to its usd, the group totals on the single networks add up to those on
   all.
   */
  lemma ScopedGroupsAddUp(wallets: seq<Wallet>, balances: Balances, mode: GroupMode, networks: set<string>,
                          groupsOn: string -> seq<WalletGroup>, network: string, groups: seq<WalletGroup>)
    requires forall n :: n in networks ==> Partition(groupsOn(n), wallets, mode, View(balances, n, false))
    requires Partition(groups, wallets, mode, View(balances, network, true))
    requires forall w :: w in wallets ==> WalletValue.Listed(BalanceOf(balances, w), w, networks)
    requires forall w :: w in wallets && w.chain == EVM && w.id in balances && !Truthy(balances[w.id].error) ==>
                           SumOfSlices(Slices(balances[w.id])) == balances[w.id].usd
    ensures SumOver(multiset(networks), TotalOn(groupsOn)) == TotalOf(groups)
  {
    hide Partition, SumOver, WalletValue.Listed, WalletUsd, TotalOf;
    var all := multiset(wallets);
    PartitionAddsUp(groups, wallets, mode, View(balances, network, true));
    SumSame(all, UsdOf(View(balances, network, true)), Worth(balances, network, true));
    forall n | n in multiset(networks)
      ensures TotalOn(groupsOn)(n) == NetworkTotal(all, balances)(n)
    {
      PartitionAddsUp(groupsOn(n), wallets, mode, View(balances, n, false));
      SumSame(all, UsdOf(View(balances, n, false)), Worth(balances, n, false));
    }
    SumSame(multiset(networks), TotalOn(groupsOn), NetworkTotal(all, balances));
    NetworkTotalsAddUp(all, balances, networks, network);
  }
}
