/** How much a slave's local reservoir receives, and what leaves it before the test starts: the charges of the
    test accounts and of the contract deployers, the gasless setup, and the auction deposits. */
module Funding {

  type Account = nat

  // ---------- account groups ----------

  const SIGNED := 0
  const UNSIGNED := 1
  const NEW_ACCOUNTS := 2
  const GASLESS_REVERT := 3
  const GASLESS_APPROVE := 4
  const FOR_TC := 5
  const ACC_LIST_END := 6

  /** The active part of n accounts. */
  function Active(n: nat, percent: nat): (active: nat)
    ensures 100 * active <= n * percent < 100 * (active + 1)
    ensures percent <= 100 ==> active <= n
    ensures percent == 100 ==> active == n
  {
    ActiveAtMost(n, percent);
    n * percent / 100
  }

  lemma ActiveAtMost(n: nat, percent: nat)
    ensures percent <= 100 ==> n * percent / 100 <= n
    ensures percent == 100 ==> n * percent / 100 == n
    ensures n * percent / 100 >= 0
  {
    if percent <= 100 {
      assert n * percent <= n * 100;
    }
  }

  /** How many accounts a loop creates that is asked for n of them. The flags may ask for a negative number. */
  function Existing(n: int): nat {
    if n < 0 then 0 else n
  }

  class AccGroup {
    const containsUnsignedAccGrp: bool
    var accLists: seq<seq<Account>>

    ghost predicate Valid()
      reads this
    {
      |accLists| == ACC_LIST_END
    }

    constructor (contains: bool)
      ensures Valid() && containsUnsignedAccGrp == contains
      ensures forall t :: 0 <= t < ACC_LIST_END ==> accLists[t] == []
    {
      containsUnsignedAccGrp := contains;
      accLists := seq(ACC_LIST_END, _ => []);
    }

    /** Appends as many new accounts to each list as its entry in `users` says. */
    method CreateAccountsPerAccGrp(users: seq<int>)
      requires Valid() && |users| == ACC_LIST_END
      modifies this
      ensures Valid()
      ensures forall t :: 0 <= t < ACC_LIST_END ==>
                old(accLists[t]) <= accLists[t] && |accLists[t]| == old(|accLists[t]|) + Existing(users[t])
    {
      for idx := 0 to |users|
        invariant Valid()
        invariant forall t :: 0 <= t < ACC_LIST_END ==> old(accLists[t]) <= accLists[t]
        invariant forall t :: 0 <= t < ACC_LIST_END ==>
                    |accLists[t]| == old(|accLists[t]|) + if t < idx then Existing(users[t]) else 0
      {
        var i := 0;
        while i < users[idx]
          invariant i <= Existing(users[idx])
          invariant Valid()
          invariant forall t :: 0 <= t < ACC_LIST_END ==> old(accLists[t]) <= accLists[t]
          invariant forall t :: 0 <= t < ACC_LIST_END ==>
                      |accLists[t]| == old(|accLists[t]|)
                                       + if t < idx then Existing(users[t]) else if t == idx then i else 0
        {
          accLists := accLists[idx := accLists[idx] + [i]];
          i := i + 1;
        }
      }
    }

    /** Keeps the active part of every list. */
    method SetAccGrpByActivePercent(percent: nat)
      requires Valid() && percent <= 100
      modifies this
      ensures Valid()
      ensures forall t :: 0 <= t < ACC_LIST_END ==>
                accLists[t] == old(accLists[t])[..Active(|old(accLists[t])|, percent)]
    {
      for i := 0 to |accLists|
        invariant Valid()
        invariant forall t :: 0 <= t < ACC_LIST_END ==>
                    accLists[t] == if t < i then old(accLists[t])[..Active(|old(accLists[t])|, percent)]
                                   else old(accLists[t])
      {
        var active := |accLists[i]| * percent / 100;
        ActiveAtMost(|accLists[i]|, percent);
        if active == 0 {
          accLists := accLists[i := []];
        } else {
          accLists := accLists[i := accLists[i][..active]];
        }
      }
    }

    /** The signed accounts, followed by the unsigned ones if a test uses them. */
    function ValidAccounts(): seq<Account>
      requires Valid()
      reads this
    {
      if !containsUnsignedAccGrp then accLists[SIGNED] else accLists[SIGNED] + accLists[UNSIGNED]
    }

    method GetValidAccGrp() returns (accGrp: seq<Account>)
      requires Valid()
      ensures accGrp == ValidAccounts()
    {
      accGrp := [];
      var signed := accLists[SIGNED];
      for i := 0 to |signed|
        invariant accGrp == signed[..i]
      {
        accGrp := accGrp + [signed[i]];
      }
      if !containsUnsignedAccGrp {
        return;
      }
      var unsigned := accLists[UNSIGNED];
      for i := 0 to |unsigned|
        invariant accGrp == signed + unsigned[..i]
      {
        accGrp := accGrp + [unsigned[i]];
      }
    }
  }

  // ---------- the test contracts ----------

  datatype Setup = NoSetup | GaslessSetup

  datatype ContractInfo = ContractInfo(testNames: seq<string>, targetTypes: seq<string>, setup: Setup, deposits: bool)

  const CONTRACT_END := 21
  const CONTRACT_GENERAL := 3
  const CONTRACT_GASLESS_SWAP_ROUTER := 8
  const CONTRACT_AUCTION_ENTRY_POINT := 12

  const GASLESS_TESTS := ["gaslessTransactionTC", "gaslessRevertTransactionTC", "gaslessOnlyApproveTC"]
  const GASLESS_TARGETS := ["GAA", "GAS", "rGAA", "rGAS"]
  const AUCTION_TESTS := ["auctionBidTC", "auctionRevertedBidTC"]

  function Plain(testNames: seq<string>): ContractInfo {
    ContractInfo(testNames, [], NoSetup, false)
  }

  /** The registered test contracts, in their order. */
  function ContractInfos(): (infos: seq<ContractInfo>)
    ensures |infos| == CONTRACT_END
    ensures forall i :: 0 <= i < CONTRACT_END ==> (infos[i].setup.GaslessSetup? <==> i == CONTRACT_GASLESS_SWAP_ROUTER)
    ensures forall i :: 0 <= i < CONTRACT_END ==> (infos[i].deposits <==> i == CONTRACT_AUCTION_ENTRY_POINT)
    ensures infos[CONTRACT_AUCTION_ENTRY_POINT].testNames == AUCTION_TESTS
    ensures infos[CONTRACT_AUCTION_ENTRY_POINT].targetTypes == []
  {
    [ Plain(["erc20TransferTC"]),
      Plain(["erc721TransferTC"]),
      Plain(["storageTrieWriteTC"]),
      Plain(["newSmartContractExecutionTC", " newFeeDelegatedSmartContractExecutionTC",
             "newFeeDelegatedSmartContractExecutionWithRatioTC", "ethereumTxLegacyTC", "ethereumTxAccessListTC",
             "newEthereumAccessListTC", "newEthereumDynamicFeeTC"]),
      ContractInfo(GASLESS_TESTS, GASLESS_TARGETS, NoSetup, false),
      ContractInfo(GASLESS_TESTS, GASLESS_TARGETS, NoSetup, false),
      ContractInfo(GASLESS_TESTS, GASLESS_TARGETS, NoSetup, false),
      ContractInfo(GASLESS_TESTS, GASLESS_TARGETS, NoSetup, false),
      ContractInfo(GASLESS_TESTS, GASLESS_TARGETS, GaslessSetup, false),
      Plain(AUCTION_TESTS),
      Plain(AUCTION_TESTS),
      Plain(AUCTION_TESTS),
      ContractInfo(AUCTION_TESTS, [], NoSetup, true),
      Plain(["cpuHeavyTC"]),
      Plain(["largeMemoTC"]),
      Plain(["readCall", "readGetStorageAt", "readEstimateGas"]),
      Plain(["userStorageSetTC", "userStorageSetGetTC"]),
      Plain(["internalTxTC", "mintNFTTC"]),
      Plain(["internalTxTC", "mintNFTTC"]),
      Plain(["erc20TransferWithBlockedListTC"]),
      Plain(["erc20TransferWithBlockedListTC"])
    ]
  }

  predicate ContainsAnyInList(list: seq<string>, targets: seq<string>) {
    exists i, j :: 0 <= i < |targets| && 0 <= j < |list| && list[j] == targets[i]
  }

  // ---------- configuration ----------

  datatype Config = Config(nUserForSigned: int, nUserForUnsigned: int, nUserForTC: int, activeUserPercent: nat,
                           tcNames: seq<string>, auctionTargets: seq<string>, chargeKLAY: nat, leader: bool)
  {
    /** What flag parsing guarantees. Auction targets are read only when an auction test is selected. */
    ghost predicate Valid() {
      && 1 <= activeUserPercent <= 100
      && (auctionTargets != [] ==> AuctionSelected())
    }

    predicate UnsignedSelected() {
      ContainsAnyInList(tcNames, ["transferUnsignedTx"])
    }

    predicate AuctionSelected() {
      ContainsAnyInList(tcNames, AUCTION_TESTS)
    }

    function SignedAccounts(): nat {
      Existing(nUserForSigned)
    }

    function UnsignedAccounts(): nat {
      Existing(nUserForUnsigned)
    }

    function GaslessRevertUsers(): int {
      if ContainsAnyInList(tcNames, ["gaslessRevertTransactionTC"]) then nUserForSigned else 0
    }

    function GaslessApproveUsers(): int {
      if ContainsAnyInList(tcNames, ["gaslessOnlyApproveTC"]) then nUserForSigned else 0
    }

    function ChargeValue(): nat {
      chargeKLAY * KAIA
    }

    function TotalChargeValue(): int {
      ChargeValue() * (nUserForUnsigned + nUserForSigned + N_USER_FOR_NEW_ACCOUNTS + CONTRACT_END)
    }

    predicate Selects(idx: nat)
      requires idx < CONTRACT_END
    {
      || idx == CONTRACT_GENERAL
      || ContainsAnyInList(tcNames, ContractInfos()[idx].testNames)
      || ContainsAnyInList(auctionTargets, ContractInfos()[idx].targetTypes)
    }
  }

  const KAIA: nat := 1_000_000_000_000_000_000
  const N_USER_FOR_NEW_ACCOUNTS: nat := 5
  const INITIAL_LIQUIDITY: nat := 10_000_000_000 * KAIA

  /** What the slave finds on the chain: which contracts have been deployed, and whether the swap router is
      registered, when the reservoir is funded and when the setup runs. A registration is never undone. */
  datatype Chain = Chain(gsrAtFunding: bool, gsrAtSetup: bool, deployed: seq<bool>) {
    ghost predicate Valid() {
      |deployed| == CONTRACT_END && (gsrAtFunding ==> gsrAtSetup)
    }
  }

  // ---------- funding and spending ----------

  function Funded(cfg: Config, chain: Chain): int {
    cfg.TotalChargeValue()
    + (if chain.gsrAtFunding then 0 else INITIAL_LIQUIDITY)
    + cfg.ChargeValue() * cfg.SignedAccounts()
    + cfg.ChargeValue() * Existing(cfg.GaslessRevertUsers())
    + cfg.ChargeValue() * Existing(cfg.GaslessApproveUsers())
  }

  /** The accounts charged before the groups are cut down to their active part. */
  function ChargedAccounts(cfg: Config): nat {
    cfg.SignedAccounts() + (if cfg.UnsignedSelected() then cfg.UnsignedAccounts() else 0)
    + Existing(cfg.GaslessRevertUsers()) + Existing(cfg.GaslessApproveUsers())
  }

  function ActiveAccounts(cfg: Config): nat {
    Active(cfg.SignedAccounts(), cfg.activeUserPercent)
    + if cfg.UnsignedSelected() then Active(cfg.UnsignedAccounts(), cfg.activeUserPercent) else 0
  }

  /** The deployers among the first n contracts that the leader charges. */
  function Deployments(cfg: Config, chain: Chain, n: nat): (d: nat)
    requires n <= CONTRACT_END == |chain.deployed|
    ensures d <= n
    ensures !cfg.leader ==> d == 0
  {
    if n == 0 then 0
    else Deployments(cfg, chain, n - 1) + if cfg.leader && cfg.Selects(n - 1) && !chain.deployed[n - 1] then 1 else 0
  }

  lemma OneMoreDeployment(cfg: Config, chain: Chain, n: nat)
    requires n < CONTRACT_END == |chain.deployed|
    ensures cfg.ChargeValue() * Deployments(cfg, chain, n + 1)
            == cfg.ChargeValue() * Deployments(cfg, chain, n)
               + if cfg.leader && cfg.Selects(n) && !chain.deployed[n] then cfg.ChargeValue() else 0
  {
    Distribute(cfg.ChargeValue(), Deployments(cfg, chain, n), 1);
  }

  predicate SetsUpGasless(cfg: Config, chain: Chain) {
    cfg.leader && cfg.Selects(CONTRACT_GASLESS_SWAP_ROUTER) && !chain.gsrAtSetup
  }

  function Deposits(cfg: Config): nat {
    if cfg.Selects(CONTRACT_AUCTION_ENTRY_POINT) then ActiveAccounts(cfg) else 0
  }

  /** The local reservoir's outgoing value. */
  class Reservoir {
    var spent: nat

    constructor ()
      ensures spent == 0
    {
      spent := 0;
    }

    method Transfer(value: nat)
      modifies this
      ensures spent == old(spent) + value
    {
      spent := spent + value;
    }

    /** The same value to each of the accounts, as by ConcurrentTransactionSend. */
    method TransferToAll(accs: seq<Account>, value: nat)
      modifies this
      ensures spent == old(spent) + value * |accs|
    {
      for i := 0 to |accs|
        invariant spent == old(spent) + value * i
      {
        Transfer(value);
        Distribute(value, i, 1);
      }
    }
  }

  lemma Distribute(v: int, x: int, y: int)
    ensures v * (x + y) == v * x + v * y
  {
  }

  /** Deploys the selected contracts, and then runs their charging. */
  method DeployTestContracts(cfg: Config, chain: Chain, accGrp: AccGroup, reservoir: Reservoir)
    requires chain.Valid() && accGrp.Valid()
    modifies reservoir
    ensures reservoir.spent == old(reservoir.spent)
                               + cfg.ChargeValue() * Deployments(cfg, chain, CONTRACT_END)
                               + (if SetsUpGasless(cfg, chain) then cfg.ChargeValue() + INITIAL_LIQUIDITY else 0)
                               + (if cfg.Selects(CONTRACT_AUCTION_ENTRY_POINT) then
                                    cfg.ChargeValue() * |accGrp.ValidAccounts()| else 0)
  {
    DeployAndSetUp(cfg, chain, reservoir);
    ChargeForContracts(cfg, accGrp, reservoir);
  }

  /** The first phase: the leader charges the deployers and runs the setup. */
  method DeployAndSetUp(cfg: Config, chain: Chain, reservoir: Reservoir)
    requires chain.Valid()
    modifies reservoir
    ensures reservoir.spent == old(reservoir.spent)
                               + cfg.ChargeValue() * Deployments(cfg, chain, CONTRACT_END)
                               + (if SetsUpGasless(cfg, chain) then cfg.ChargeValue() + INITIAL_LIQUIDITY else 0)
  {
    var infos := ContractInfos();
    var charge := cfg.ChargeValue();
    for idx := 0 to CONTRACT_END
      invariant reservoir.spent == old(reservoir.spent) + charge * Deployments(cfg, chain, idx)
                                   + (if idx > CONTRACT_GASLESS_SWAP_ROUTER && SetsUpGasless(cfg, chain) then
                                        charge + INITIAL_LIQUIDITY else 0)
    {
      OneMoreDeployment(cfg, chain, idx);
      if cfg.Selects(idx) {
        if cfg.leader {
          if !chain.deployed[idx] {
            reservoir.Transfer(charge);
          }
          if infos[idx].setup.GaslessSetup? && !chain.gsrAtSetup {
            reservoir.Transfer(charge + INITIAL_LIQUIDITY);
          }
        }
      }
    }
  }

  /** The second phase: every slave charges the valid accounts, where a contract asks for it. */
  method ChargeForContracts(cfg: Config, accGrp: AccGroup, reservoir: Reservoir)
    requires accGrp.Valid()
    modifies reservoir
    ensures reservoir.spent == old(reservoir.spent)
                               + (if cfg.Selects(CONTRACT_AUCTION_ENTRY_POINT) then
                                    cfg.ChargeValue() * |accGrp.ValidAccounts()| else 0)
  {
    var infos := ContractInfos();
    for idx := 0 to CONTRACT_END
      invariant reservoir.spent == old(reservoir.spent)
                                   + if idx > CONTRACT_AUCTION_ENTRY_POINT && cfg.Selects(CONTRACT_AUCTION_ENTRY_POINT)
                                     then cfg.ChargeValue() * |accGrp.ValidAccounts()| else 0
    {
      if cfg.Selects(idx) && infos[idx].deposits {
        var accs := accGrp.GetValidAccGrp();
        reservoir.TransferToAll(accs, cfg.ChargeValue());
      }
    }
  }

  /** Everything that leaves the reservoir before the test starts, each charge being sent once. */
  function Spent(cfg: Config, chain: Chain): int
    requires chain.Valid()
  {
    cfg.ChargeValue() * ChargedAccounts(cfg)
    + cfg.ChargeValue() * Deployments(cfg, chain, CONTRACT_END)
    + (if SetsUpGasless(cfg, chain) then cfg.ChargeValue() + INITIAL_LIQUIDITY else 0)
    + cfg.ChargeValue() * Deposits(cfg)
  }

  // ---------- does the funding suffice? ----------

  /** The charge units funded beyond those spent. */
  function SpareUnits(cfg: Config, chain: Chain): int
    requires chain.Valid()
  {
    N_USER_FOR_NEW_ACCOUNTS + CONTRACT_END - Deployments(cfg, chain, CONTRACT_END)
    - (if SetsUpGasless(cfg, chain) then 1 else 0)
    + cfg.nUserForUnsigned - (if cfg.UnsignedSelected() then cfg.UnsignedAccounts() else 0)
    + cfg.nUserForSigned - Deposits(cfg)
  }

  // ---------- which contracts are deployed, and what that costs ----------

  predicate AsksForGasless(cfg: Config) {
    || "gaslessTransactionTC" in cfg.tcNames
    || "gaslessRevertTransactionTC" in cfg.tcNames
    || "gaslessOnlyApproveTC" in cfg.tcNames
    || "GAA" in cfg.auctionTargets
    || "GAS" in cfg.auctionTargets
    || "rGAA" in cfg.auctionTargets
    || "rGAS" in cfg.auctionTargets
  }

  predicate AsksForAuction(cfg: Config) {
    "auctionBidTC" in cfg.tcNames || "auctionRevertedBidTC" in cfg.tcNames
  }

  lemma ContainsAnyExactly(list: seq<string>, targets: seq<string>)
    ensures ContainsAnyInList(list, targets) <==> exists t :: t in targets && t in list
  {
    if t :| t in targets && t in list {
      var i :| 0 <= i < |targets| && targets[i] == t;
      var j :| 0 <= j < |list| && list[j] == t;
      assert list[j] == targets[i];
    }
    if ContainsAnyInList(list, targets) {
      var i, j :| 0 <= i < |targets| && 0 <= j < |list| && list[j] == targets[i];
      assert targets[i] in targets && targets[i] in list;
    }
  }

  /** The contracts of gasless transactions and of auctions. */
  lemma GroupsSelected(cfg: Config, i: nat)
    requires 3 <= i <= 12
    ensures cfg.Selects(i) <==> if i == 3 then true else if i <= 8 then AsksForGasless(cfg) else AsksForAuction(cfg)
  {
    var info := ContractInfos()[i];
    ContainsAnyExactly(cfg.tcNames, info.testNames);
    ContainsAnyExactly(cfg.auctionTargets, info.targetTypes);
    if 4 <= i <= 8 {
      assert info.testNames == GASLESS_TESTS && info.targetTypes == GASLESS_TARGETS;
      ThreeIn(cfg.tcNames, GASLESS_TESTS);
      FourIn(cfg.auctionTargets, GASLESS_TARGETS);
    } else if i > 8 {
      assert info.testNames == AUCTION_TESTS && info.targetTypes == [];
      TwoIn(cfg.tcNames, AUCTION_TESTS);
    }
  }

  lemma TwoIn(list: seq<string>, t: seq<string>)
    requires |t| == 2
    ensures (exists x :: x in t && x in list) <==> t[0] in list || t[1] in list
  {
  }

  lemma ThreeIn(list: seq<string>, t: seq<string>)
    requires |t| == 3
    ensures (exists x :: x in t && x in list) <==> t[0] in list || t[1] in list || t[2] in list
  {
  }

  lemma FourIn(list: seq<string>, t: seq<string>)
    requires |t| == 4
    ensures (exists x :: x in t && x in list) <==> t[0] in list || t[1] in list || t[2] in list || t[3] in list
  {
  }

  /** The contracts of the other tests. The leading blank in the name of one test is the source's: that test does not
      select its contract, which is deployed anyway. */
  lemma OthersSelected(cfg: Config)
    ensures cfg.Selects(0) <==> "erc20TransferTC" in cfg.tcNames
    ensures cfg.Selects(1) <==> "erc721TransferTC" in cfg.tcNames
    ensures cfg.Selects(2) <==> "storageTrieWriteTC" in cfg.tcNames
    ensures cfg.Selects(13) <==> "cpuHeavyTC" in cfg.tcNames
    ensures cfg.Selects(14) <==> "largeMemoTC" in cfg.tcNames
  {
    OneTest(cfg, 0, "erc20TransferTC");
    OneTest(cfg, 1, "erc721TransferTC");
    OneTest(cfg, 2, "storageTrieWriteTC");
    OneTest(cfg, 13, "cpuHeavyTC");
    OneTest(cfg, 14, "largeMemoTC");
  }

  lemma OneTest(cfg: Config, i: nat, name: string)
    requires i < CONTRACT_END && i != CONTRACT_GENERAL && ContractInfos()[i] == Plain([name])
    ensures cfg.Selects(i) <==> name in cfg.tcNames
  {
    ContainsAnyExactly(cfg.tcNames, [name]);
    ContainsAnyExactly(cfg.auctionTargets, []);
  }

  lemma RestSelected(cfg: Config)
    ensures cfg.Selects(15) <==>
              "readCall" in cfg.tcNames || "readGetStorageAt" in cfg.tcNames || "readEstimateGas" in cfg.tcNames
    ensures cfg.Selects(16) <==> "userStorageSetTC" in cfg.tcNames || "userStorageSetGetTC" in cfg.tcNames
    ensures cfg.Selects(17) <==> "internalTxTC" in cfg.tcNames || "mintNFTTC" in cfg.tcNames
    ensures cfg.Selects(18) <==> "internalTxTC" in cfg.tcNames || "mintNFTTC" in cfg.tcNames
    ensures cfg.Selects(19) <==> "erc20TransferWithBlockedListTC" in cfg.tcNames
    ensures cfg.Selects(20) <==> "erc20TransferWithBlockedListTC" in cfg.tcNames
  {
    var names := ["readCall", "readGetStorageAt", "readEstimateGas"];
    ContainsAnyExactly(cfg.tcNames, names);
    ThreeIn(cfg.tcNames, names);
    TwoTests(cfg, 16, "userStorageSetTC", "userStorageSetGetTC");
    TwoTests(cfg, 17, "internalTxTC", "mintNFTTC");
    TwoTests(cfg, 18, "internalTxTC", "mintNFTTC");
    OneTest(cfg, 19, "erc20TransferWithBlockedListTC");
    OneTest(cfg, 20, "erc20TransferWithBlockedListTC");
  }

  lemma TwoTests(cfg: Config, i: nat, name: string, other: string)
    requires i < CONTRACT_END && i != CONTRACT_GENERAL && ContractInfos()[i] == Plain([name, other])
    ensures cfg.Selects(i) <==> name in cfg.tcNames || other in cfg.tcNames
  {
    ContainsAnyExactly(cfg.tcNames, [name, other]);
    TwoIn(cfg.tcNames, [name, other]);
  }

  ghost function CountBelow(p: nat -> bool, n: nat): nat {
    if n == 0 then 0 else CountBelow(p, n - 1) + if p(n - 1) then 1 else 0
  }

  lemma {:induction false} CountBelowExactly(p: nat -> bool, n: nat)
    ensures CountBelow(p, n) == |set i: nat | i < n && p(i)|
  {
    if n > 0 {
      CountBelowExactly(p, n - 1);
      var before, now := set i: nat | i < n - 1 && p(i), set i: nat | i < n && p(i);
      if p(n - 1) {
        assert now == before + {n - 1};
      } else {
        assert now == before;
      }
    }
  }

  /** The contracts whose deployers the leader charges. */
  predicate Deploys(cfg: Config, chain: Chain, i: nat)
    requires |chain.deployed| == CONTRACT_END
  {
    i < CONTRACT_END && cfg.leader && cfg.Selects(i) && !chain.deployed[i]
  }

  lemma {:induction false} DeploymentsBelow(cfg: Config, chain: Chain, p: nat -> bool, n: nat)
    requires n <= CONTRACT_END == |chain.deployed|
    requires forall i: nat :: i < n ==> (p(i) <==> Deploys(cfg, chain, i))
    ensures Deployments(cfg, chain, n) == CountBelow(p, n)
  {
    if n > 0 {
      DeploymentsBelow(cfg, chain, p, n - 1);
      assert p(n - 1) <==> Deploys(cfg, chain, n - 1);
    }
  }

  /** The leader charges the deployer of each selected contract that has not been deployed, once. */
  lemma DeploymentsCounted(cfg: Config, chain: Chain)
    requires |chain.deployed| == CONTRACT_END
    ensures Deployments(cfg, chain, CONTRACT_END) == |set i: nat | i < CONTRACT_END && Deploys(cfg, chain, i)|
  {
    var p := (i: nat) => Deploys(cfg, chain, i);
    DeploymentsBelow(cfg, chain, p, CONTRACT_END);
    CountBelowExactly(p, CONTRACT_END);
    assert (set i: nat | i < CONTRACT_END && p(i)) == set i: nat | i < CONTRACT_END && Deploys(cfg, chain, i);
  }

  /** A bid whose targets are gasless, and two gasless tests, on a fresh chain: the leader deploys contracts 3 to 12 and
      sets up the liquidity. With 40 percent active, two of the five signed accounts deposit, but all are charged, as
      are the five accounts that each of the gasless tests has of its own. */
  lemma SpendingOfGaslessBids() returns (cfg: Config, chain: Chain)
    ensures cfg == Config(5, 0, 0, 40, ["auctionBidTC", "gaslessRevertTransactionTC", "gaslessOnlyApproveTC"],
                          ["GAA"], 1, true)
    ensures chain == Chain(false, false, seq(CONTRACT_END, _ => false))
    ensures cfg.Valid() && chain.Valid()
    ensures Spent(cfg, chain) == (5 + 5 + 5 + 10 + 1 + 2) * KAIA + INITIAL_LIQUIDITY
    ensures Funded(cfg, chain) == (5 + 5 + 21 + 5 + 5 + 5) * KAIA + INITIAL_LIQUIDITY
  {
    cfg := Config(5, 0, 0, 40, ["auctionBidTC", "gaslessRevertTransactionTC", "gaslessOnlyApproveTC"],
                          ["GAA"], 1, true);
    chain := Chain(false, false, seq(CONTRACT_END, _ => false));
    assert "gaslessRevertTransactionTC" == cfg.tcNames[1] && "auctionBidTC" == cfg.tcNames[0];
    TenDeployments(cfg, chain);
    GaslessBidUsers(cfg);
  }

  lemma GaslessBidUsers(cfg: Config)
    requires cfg == Config(5, 0, 0, 40, ["auctionBidTC", "gaslessRevertTransactionTC", "gaslessOnlyApproveTC"],
                          ["GAA"], 1, true)
    ensures cfg.GaslessRevertUsers() == 5 && cfg.GaslessApproveUsers() == 5 && !cfg.UnsignedSelected()
    ensures Active(5, 40) == 2
  {
    assert cfg.tcNames[1] == ["gaslessRevertTransactionTC"][0];
    assert cfg.tcNames[2] == ["gaslessOnlyApproveTC"][0];
  }

  /** The same without a gasless test: the target alone selects the gasless contracts. */
  lemma SpendingOfGaslessTarget() returns (cfg: Config, chain: Chain)
    ensures cfg == Config(5, 0, 0, 100, ["auctionBidTC"], ["GAA"], 1, true)
    ensures chain == Chain(false, false, seq(CONTRACT_END, _ => false))
    ensures cfg.Valid() && chain.Valid()
    ensures Spent(cfg, chain) == (5 + 10 + 1 + 5) * KAIA + INITIAL_LIQUIDITY
  {
    cfg := Config(5, 0, 0, 100, ["auctionBidTC"], ["GAA"], 1, true);
    chain := Chain(false, false, seq(CONTRACT_END, _ => false));
    assert cfg.tcNames[0] == AUCTION_TESTS[0];
    TenDeployments(cfg, chain);
    assert !cfg.UnsignedSelected() && cfg.GaslessRevertUsers() == cfg.GaslessApproveUsers() == 0;
  }

  lemma TenDeployments(cfg: Config, chain: Chain)
    requires cfg.leader && AsksForAuction(cfg) && AsksForGasless(cfg)
    requires forall t :: t in cfg.tcNames ==>
               t == "auctionBidTC" || t == "gaslessRevertTransactionTC" || t == "gaslessOnlyApproveTC"
    requires chain == Chain(false, false, seq(CONTRACT_END, _ => false))
    ensures Deployments(cfg, chain, CONTRACT_END) == 10
    ensures SetsUpGasless(cfg, chain) && cfg.Selects(CONTRACT_AUCTION_ENTRY_POINT)
  {
    SelectedHere(cfg, CONTRACT_GASLESS_SWAP_ROUTER);
    SelectedHere(cfg, CONTRACT_AUCTION_ENTRY_POINT);
    var p := (i: nat) => 3 <= i <= 12;
    forall i: nat | i < CONTRACT_END ensures p(i) <==> Deploys(cfg, chain, i) {
      SelectedHere(cfg, i);
    }
    DeploymentsBelow(cfg, chain, p, CONTRACT_END);
    ThreeToTwelve(p, CONTRACT_END);
  }

  lemma {:induction false} ThreeToTwelve(p: nat -> bool, n: nat)
    requires forall i: nat :: p(i) <==> 3 <= i <= 12
    ensures CountBelow(p, n) == if n < 3 then 0 else if n <= 13 then n - 3 else 10
  {
    if n > 0 {
      ThreeToTwelve(p, n - 1);
    }
  }

  lemma SelectedHere(cfg: Config, i: nat)
    requires AsksForAuction(cfg) && AsksForGasless(cfg) && i < CONTRACT_END
    requires forall t :: t in cfg.tcNames ==>
               t == "auctionBidTC" || t == "gaslessRevertTransactionTC" || t == "gaslessOnlyApproveTC"
    ensures cfg.Selects(i) <==> 3 <= i <= 12
  {
    if 3 <= i <= 12 {
      GroupsSelected(cfg, i);
    } else if i < 15 {
      OthersSelected(cfg);
    } else {
      RestSelected(cfg);
    }
  }

  lemma AuctionEntryPointSelected(cfg: Config)
    ensures cfg.Selects(CONTRACT_AUCTION_ENTRY_POINT) <==> cfg.AuctionSelected()
  {
  }

  /** What is left in the reservoir, exactly. Liquidity that another slave has provided meanwhile stays. */
  lemma FundingBalance(cfg: Config, chain: Chain)
    requires chain.Valid()
    ensures Funded(cfg, chain) - Spent(cfg, chain)
            == cfg.ChargeValue() * SpareUnits(cfg, chain)
               + UnspentLiquidity(cfg, chain)
  {
    var d, g := Deployments(cfg, chain, CONTRACT_END), if SetsUpGasless(cfg, chain) then 1 else 0;
    UnitsAddUp(cfg.ChargeValue(), cfg.nUserForUnsigned + cfg.nUserForSigned + N_USER_FOR_NEW_ACCOUNTS + CONTRACT_END,
               cfg.SignedAccounts(), Existing(cfg.GaslessRevertUsers()), Existing(cfg.GaslessApproveUsers()),
               ChargedAccounts(cfg), d, g, Deposits(cfg));
  }

  /** Funding in units of v, less the spending in units of v. */
  lemma UnitsAddUp(v: int, f0: int, f1: int, f2: int, f3: int, s0: int, s1: int, s2: int, s3: int)
    ensures v * f0 + v * f1 + v * f2 + v * f3 - (v * s0 + v * s1 + v * s2 + v * s3)
            == v * (f0 + f1 + f2 + f3 - s0 - s1 - s2 - s3)
  {
  }

  /** For every configuration with non-negative numbers of users that does not select the unsigned test together
      with an auction test, the funding covers the spending, and at least four charge units are left for fees. */
  lemma FundingSuffices(cfg: Config, chain: Chain)
    requires cfg.Valid() && chain.Valid()
    requires cfg.nUserForSigned >= 0 && cfg.nUserForUnsigned >= 0
    requires !(cfg.UnsignedSelected() && cfg.AuctionSelected())
    ensures Spent(cfg, chain) + 4 * cfg.ChargeValue() <= Funded(cfg, chain)
  {
    FundingBalance(cfg, chain);
    FourUnitsSpare(cfg, chain);
    Monotone(cfg.ChargeValue(), 4, SpareUnits(cfg, chain));
  }

  lemma FourUnitsSpare(cfg: Config, chain: Chain)
    requires cfg.Valid() && chain.Valid()
    requires cfg.nUserForSigned >= 0 && cfg.nUserForUnsigned >= 0
    requires !(cfg.UnsignedSelected() && cfg.AuctionSelected())
    ensures SpareUnits(cfg, chain) >= 4
  {
    AuctionEntryPointSelected(cfg);
    var d := Deployments(cfg, chain, CONTRACT_END);
    assert d <= CONTRACT_END;
    assert Deposits(cfg) <= if cfg.UnsignedSelected() then 0 else cfg.nUserForSigned;
  }

  lemma Monotone(v: nat, x: int, y: int)
    requires x <= y
    ensures v * x <= v * y
  {
  }

  /** The liquidity that the reservoir was funded with but does not pass on, because another slave has
      registered the router meanwhile or because this one never sets it up. */
  function UnspentLiquidity(cfg: Config, chain: Chain): nat {
    if !chain.gsrAtFunding && !SetsUpGasless(cfg, chain) then INITIAL_LIQUIDITY else 0
  }

  /** For every configuration, the funding covers the spending exactly when the charge units that are missing, if any
      are, fit into the unspent liquidity; without any such liquidity, exactly when none is missing. */
  lemma FundingExactly(cfg: Config, chain: Chain)
    requires chain.Valid() && cfg.ChargeValue() > 0
    ensures Spent(cfg, chain) <= Funded(cfg, chain) <==>
              cfg.ChargeValue() * -SpareUnits(cfg, chain) <= UnspentLiquidity(cfg, chain)
    ensures UnspentLiquidity(cfg, chain) == 0 ==>
              (Spent(cfg, chain) <= Funded(cfg, chain) <==> SpareUnits(cfg, chain) >= 0)
  {
    FundingBalance(cfg, chain);
    SignOfProduct(cfg.ChargeValue(), SpareUnits(cfg, chain));
    Negated(cfg.ChargeValue(), SpareUnits(cfg, chain));
  }

  /** With both selected, the charge units that the deposits of the unsigned accounts and the deployments take
      beyond what the inactive signed accounts and the unused allowances leave over. */
  function UnitsMissing(cfg: Config, chain: Chain): int
    requires chain.Valid()
  {
    Active(cfg.UnsignedAccounts(), cfg.activeUserPercent) + (cfg.UnsignedAccounts() - cfg.nUserForUnsigned)
    + Deployments(cfg, chain, CONTRACT_END) + (if SetsUpGasless(cfg, chain) then 1 else 0)
    - (cfg.nUserForSigned - Active(cfg.SignedAccounts(), cfg.activeUserPercent))
    - N_USER_FOR_NEW_ACCOUNTS - CONTRACT_END
  }

  /** With both selected, the funding covers the spending exactly when the missing units fit into the unspent
      liquidity; without any such liquidity, exactly when no unit is missing. */
  lemma FundingWithBothSelected(cfg: Config, chain: Chain)
    requires cfg.Valid() && chain.Valid() && cfg.ChargeValue() > 0
    requires cfg.UnsignedSelected() && cfg.AuctionSelected()
    ensures Spent(cfg, chain) <= Funded(cfg, chain) <==>
              cfg.ChargeValue() * UnitsMissing(cfg, chain) <= UnspentLiquidity(cfg, chain)
    ensures UnspentLiquidity(cfg, chain) == 0 ==>
              (Spent(cfg, chain) <= Funded(cfg, chain) <==> UnitsMissing(cfg, chain) <= 0)
  {
    FundingExactly(cfg, chain);
    AuctionEntryPointSelected(cfg);
    assert -SpareUnits(cfg, chain) == UnitsMissing(cfg, chain);
  }

  lemma Negated(v: int, x: int)
    ensures v * -x == -(v * x)
  {
  }

  lemma SignOfProduct(v: int, x: int)
    requires v > 0
    ensures v * x >= 0 <==> x >= 0
  {
    if x >= 0 {
      assert v * x >= 0;
    } else {
      assert v * x <= v * -1;
    }
  }

  /** With both selected the funding can fall short: 27 active unsigned accounts are enough. */
  lemma FundingCanFallShort() returns (cfg: Config, chain: Chain)
    ensures cfg.Valid() && chain.Valid() && cfg.UnsignedSelected() && cfg.AuctionSelected()
    ensures cfg.nUserForUnsigned == 27 && Spent(cfg, chain) > Funded(cfg, chain)
  {
    cfg := Config(5, 27, 0, 100, ["transferUnsignedTx", "auctionBidTC"], ["VT"], 1, false);
    chain := Chain(true, true, seq(CONTRACT_END, _ => true));
    assert cfg.tcNames[0] == ["transferUnsignedTx"][0] && cfg.tcNames[1] == AUCTION_TESTS[0];
    FundingWithBothSelected(cfg, chain);
  }

  /** A negative number of unsigned users creates no account, yet lowers the funded total: with -32 of them, it falls
      below what even five signed users take. */
  lemma NegativeUsersFallShort() returns (cfg: Config, chain: Chain)
    ensures cfg.Valid() && chain.Valid() && !cfg.UnsignedSelected() && !cfg.AuctionSelected()
    ensures cfg.nUserForSigned == 5 && cfg.nUserForUnsigned == -32
    ensures 0 < Funded(cfg, chain) < Spent(cfg, chain)
  {
    cfg := Config(5, -32, 0, 100, ["transferSignedTx"], [], 1, false);
    chain := Chain(true, true, seq(CONTRACT_END, _ => true));
    NoAuction(cfg);
    FundingExactly(cfg, chain);
  }

  lemma NoAuction(cfg: Config)
    requires cfg.tcNames == ["transferSignedTx"]
    ensures !cfg.UnsignedSelected() && !cfg.AuctionSelected()
    ensures cfg.GaslessRevertUsers() == cfg.GaslessApproveUsers() == 0
    ensures Deposits(cfg) == 0
  {
    AuctionEntryPointSelected(cfg);
  }

  // ---------- the preparation as a whole ----------

  /** RunAction up to the tests. With a charge of 0 nothing is funded, spent or deployed. Otherwise the reservoir
      receives `funded` and spends as specified; the groups are cut down after the accounts have been charged. */
  method PrepareAccountsAndContracts(cfg: Config, chain: Chain)
    returns (funded: int, reservoir: Reservoir, accGrp: AccGroup)
    requires cfg.Valid() && chain.Valid()
    ensures fresh(reservoir) && fresh(accGrp) && accGrp.Valid()
    ensures cfg.ChargeValue() == 0 ==> funded == 0 && reservoir.spent == 0
    ensures cfg.ChargeValue() > 0 ==> funded == Funded(cfg, chain) && reservoir.spent == Spent(cfg, chain)
    ensures cfg.ChargeValue() > 0 ==> |accGrp.ValidAccounts()| == ActiveAccounts(cfg)
    ensures cfg.nUserForSigned >= 0 && cfg.nUserForUnsigned >= 0 ==>
              !(cfg.UnsignedSelected() && cfg.AuctionSelected()) ==>
              funded - reservoir.spent >= 4 * cfg.ChargeValue()
  {
    accGrp := new AccGroup(cfg.UnsignedSelected());
    reservoir := new Reservoir();
    accGrp.CreateAccountsPerAccGrp([cfg.nUserForSigned, cfg.nUserForUnsigned, N_USER_FOR_NEW_ACCOUNTS,
                                    cfg.GaslessRevertUsers(), cfg.GaslessApproveUsers(), cfg.nUserForTC]);
    var charge := cfg.ChargeValue();
    if charge == 0 {
      return 0, reservoir, accGrp;
    }
    var initialLiquidity := if chain.gsrAtFunding then 0 else INITIAL_LIQUIDITY;
    funded := cfg.TotalChargeValue() + initialLiquidity + charge * |accGrp.accLists[SIGNED]|
              + charge * |accGrp.accLists[GASLESS_REVERT]| + charge * |accGrp.accLists[GASLESS_APPROVE]|;
    ChargeAccounts(cfg, accGrp, reservoir);
    accGrp.SetAccGrpByActivePercent(cfg.activeUserPercent);
    DeployTestContracts(cfg, chain, accGrp, reservoir);
    if cfg.nUserForSigned >= 0 && cfg.nUserForUnsigned >= 0 && !(cfg.UnsignedSelected() && cfg.AuctionSelected()) {
      FundingSuffices(cfg, chain);
    }
  }

  /** All accounts are charged, whether they will be active or not. */
  method ChargeAccounts(cfg: Config, accGrp: AccGroup, reservoir: Reservoir)
    requires accGrp.Valid() && accGrp.containsUnsignedAccGrp == cfg.UnsignedSelected()
    requires |accGrp.accLists[SIGNED]| == cfg.SignedAccounts() && |accGrp.accLists[UNSIGNED]| == cfg.UnsignedAccounts()
    requires |accGrp.accLists[GASLESS_REVERT]| == Existing(cfg.GaslessRevertUsers())
    requires |accGrp.accLists[GASLESS_APPROVE]| == Existing(cfg.GaslessApproveUsers())
    modifies reservoir
    ensures reservoir.spent == old(reservoir.spent) + cfg.ChargeValue() * ChargedAccounts(cfg)
  {
    var accs := accGrp.GetValidAccGrp();
    accs := accs + accGrp.accLists[GASLESS_REVERT];
    accs := accs + accGrp.accLists[GASLESS_APPROVE];
    assert |accs| == ChargedAccounts(cfg);
    reservoir.TransferToAll(accs, cfg.ChargeValue());
  }
}
