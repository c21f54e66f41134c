/**
  The mining-reward ledger: reward operations, their processing against a block's list of
  uncle miners, and credits and debits on balances kept as 8-byte numbers in the world state.
*/
module Ledger {
  import opened Hashing
  import opened Ancestry
  import opened ForkChoice
  import opened Runs
  import opened Uncles
  import opened FixedBytes

  const OP_REWARD: string := "REWARD"
  const PARAM_MINER: string := "MINER"
  const PARAM_UNCLE: string := "UNCLE"
  const PARAM_AWARD: string := "AWARD"
  const MINER_AWARD: string := "1000000"
  const UNCLE_AWARD: string := "200000"
  const MINER_UNITS: U64 := 1000000
  const UNCLE_UNITS: U64 := 200000

  datatype Op = Op(opCode: string, params: map<string, string>)

  // ---------- Accounts and amounts as text ----------

  const HEX_DIGITS: string := "0123456789abcdef"

  /** Lower-case hex text of a byte string: the name of its account. */
  function HexString(b: Bytes): (s: string)
    ensures |s| == 2 * |b|
  {
    if b == [] then "" else HexString(b[..|b| - 1]) + [HEX_DIGITS[b[|b| - 1] / 16], HEX_DIGITS[b[|b| - 1] % 16]]
  }

  lemma HexDigitsDistinct(i: nat, j: nat)
    requires i < 16 && j < 16 && HEX_DIGITS[i] == HEX_DIGITS[j]
    ensures i == j
  {
  }

  lemma HexStringLast(b: Bytes, n: nat)
    requires |b| == n + 1
    ensures HexString(b)[..2 * n] == HexString(b[..n])
    ensures HexString(b)[2 * n] == HEX_DIGITS[b[n] / 16] && HexString(b)[2 * n + 1] == HEX_DIGITS[b[n] % 16]
  {
  }

  /** What a hex digit stands for. */
  function HexValue(c: char): int {
    if '0' <= c <= '9' then c as int - '0' as int else if 'a' <= c <= 'f' then c as int - 'a' as int + 10 else -1
  }

  /** An account's name reads back as the address: two lower-case digits for each byte, the high half first. */
  lemma {:induction false} HexStringReads(b: Bytes, i: nat)
    requires i < |b|
    ensures 0 <= HexValue(HexString(b)[2 * i]) < 16 && 0 <= HexValue(HexString(b)[2 * i + 1]) < 16
    ensures 16 * HexValue(HexString(b)[2 * i]) + HexValue(HexString(b)[2 * i + 1]) == b[i]
  {
    var n := |b| - 1;
    HexStringLast(b, n);
    if i < n {
      HexStringReads(b[..n], i);
      assert HexString(b)[2 * i] == HexString(b)[..2 * n][2 * i];
      assert HexString(b)[2 * i + 1] == HexString(b)[..2 * n][2 * i + 1];
    } else {
      DigitValue(b[n] / 16);
      DigitValue(b[n] % 16);
    }
  }

  lemma DigitValue(d: nat)
    requires d < 16
    ensures HexValue(HEX_DIGITS[d]) == d
  {
  }

  /** Different addresses are different accounts. */
  lemma {:induction false} HexStringInjective(a: Bytes, b: Bytes)
    requires HexString(a) == HexString(b)
    ensures a == b
  {
    assert |a| == |b|;
    if a != [] {
      var n := |a| - 1;
      HexStringLast(a, n);
      HexStringLast(b, n);
      HexStringInjective(a[..n], b[..n]);
      HexDigitsDistinct(a[n] / 16, b[n] / 16);
      HexDigitsDistinct(a[n] % 16, b[n] % 16);
      assert a[n] == b[n];
      assert a[..n] + [a[n]] == a && b[..n] + [b[n]] == b;
    }
  }

  /** Reads a decimal 64-bit number. */
  function ParseUint(s: string): Option<U64> {
    if s == [] then None
    else if !('0' <= s[|s| - 1] <= '9') then None
    else
      var d := (s[|s| - 1] - '0') as int;
      if |s| == 1 then Some(d)
      else
        var front := ParseUint(s[..|s| - 1]);
        if front.None? || front.value * 10 + d >= TWO64 then None else Some(front.value * 10 + d)
  }

  lemma AwardsParse()
    ensures ParseUint(MINER_AWARD) == Some(MINER_UNITS) && ParseUint(UNCLE_AWARD) == Some(UNCLE_UNITS)
  {
    assert ParseUint("1") == Some(1) && ParseUint("2") == Some(2);
    assert "10"[..1] == "1" && "100"[..2] == "10" && "1000"[..3] == "100" && "10000"[..4] == "1000";
    assert "100000"[..5] == "10000" && "1000000"[..6] == "100000";
    assert ParseUint("10") == Some(10);
    assert ParseUint("100") == Some(100);
    assert ParseUint("1000") == Some(1000);
    assert ParseUint("10000") == Some(10000);
    assert ParseUint("100000") == Some(100000);
    assert "20"[..1] == "2" && "200"[..2] == "20" && "2000"[..3] == "200" && "20000"[..4] == "2000";
    assert "200000"[..5] == "20000";
    assert ParseUint("20") == Some(20);
    assert ParseUint("200") == Some(200);
    assert ParseUint("2000") == Some(2000);
    assert ParseUint("20000") == Some(20000);
  }

  // ---------- Balances ----------

  function RtuOf(b: Bytes): U64 {
    Byte8ToUint64(Fit8(b))
  }

  /** The balance of every account that has one. */
  type Accounts = map<string, U64>

  /** m are the balances behind the bytes a block holds. */
  ghost predicate Backs(data: map<string, Bytes>, m: Accounts) {
    data.Keys == m.Keys && forall a {:trigger RtuOf(data[a])} :: a in data ==> RtuOf(data[a]) == m[a]
  }

  function Balance(m: Accounts, a: string): U64 {
    if a in m then m[a] else 0
  }

  lemma NoBytesNoBalance()
    ensures RtuOf([]) == 0
  {
    Uint64RoundTrip(0);
    assert Fit8([]) == Fit8(Uint64ToByte8(0)) by {
      assert Encode(0, 8) == [0, 0, 0, 0, 0, 0, 0, 0];
    }
  }

  /** Writing a number out as bytes writes that balance. */
  lemma WritesBalance(data: map<string, Bytes>, m: Accounts, a: string, n: U64)
    requires Backs(data, m)
    ensures Backs(data[a := Uint64ToByte8(n)], m[a := n])
  {
    Uint64RoundTrip(n);
    forall b | b in data && b != a ensures RtuOf(data[b]) == m[b] {
    }
  }

  lemma ReadsBalance(data: map<string, Bytes>, m: Accounts, a: string)
    requires Backs(data, m)
    ensures RtuOf(if a in data then data[a] else []) == Balance(m, a)
  {
    NoBytesNoBalance();
  }

  /** 64-bit addition. */
  function Plus(x: U64, y: U64): U64 {
    if x + y < TWO64 then x + y else x + y - TWO64
  }

  function Credited(m: Accounts, a: string, delta: U64): Accounts {
    m[a := Plus(Balance(m, a), delta)]
  }

  /** None when the balance is too low. */
  function Debited(m: Accounts, a: string, delta: U64): Option<Accounts> {
    if Balance(m, a) < delta then None else Some(m[a := Balance(m, a) - delta])
  }

  /** The sum of all balances. */
  ghost function Total(m: Accounts): nat {
    if m == map[] then 0
    else
      var a :| a in m;
      m[a] + Total(m - {a})
  }

  /** Any account's balance can be split off the total. */
  lemma {:induction false} TotalSplit(m: Accounts, a: string)
    requires a in m
    ensures Total(m) == m[a] + Total(m - {a})
    decreases |m|
  {
    var b :| b in m && Total(m) == m[b] + Total(m - {b});
    if b != a {
      TotalSplit(m - {b}, a);
      TotalSplit(m - {a}, b);
      assert m - {b} - {a} == m - {a} - {b};
    }
  }

  /** Writing a balance changes the total by the difference. */
  lemma TotalWrite(m: Accounts, a: string, n: U64)
    ensures Total(m[a := n]) + Balance(m, a) == Total(m) + n
  {
    var m' := m[a := n];
    TotalSplit(m', a);
    assert m' - {a} == m - {a};
    if a in m {
      TotalSplit(m, a);
    } else {
      assert m - {a} == m;
    }
  }

  lemma BalanceBelowTotal(m: Accounts, a: string)
    ensures Balance(m, a) <= Total(m)
  {
    if a in m {
      TotalSplit(m, a);
    }
  }

  /** A credit adds its amount to the total exactly when the account's balance does not wrap around. */
  lemma CreditTotal(m: Accounts, a: string, delta: U64)
    ensures Total(Credited(m, a, delta)) == Total(m) + delta <==> Balance(m, a) + delta < TWO64
    ensures Total(m) + delta < TWO64 ==> Total(Credited(m, a, delta)) == Total(m) + delta
    ensures forall b :: b != a ==> Balance(Credited(m, a, delta), b) == Balance(m, b)
  {
    TotalWrite(m, a, Plus(Balance(m, a), delta));
    BalanceBelowTotal(m, a);
  }

  /** A debit goes through exactly if the balance covers it, and takes its amount from that account alone. */
  lemma DebitTakes(m: Accounts, a: string, delta: U64, b: string)
    ensures Debited(m, a, delta).Some? <==> Balance(m, a) >= delta
    ensures Debited(m, a, delta).Some? ==>
      Balance(Debited(m, a, delta).value, b) == if b == a then Balance(m, a) - delta else Balance(m, b)
  {
  }

  lemma DebitTotal(m: Accounts, a: string, delta: U64)
    requires Debited(m, a, delta).Some?
    ensures Total(Debited(m, a, delta).value) == Total(m) - delta
    ensures forall b :: b != a ==> Balance(Debited(m, a, delta).value, b) == Balance(m, b)
  {
    TotalWrite(m, a, Balance(m, a) - delta);
  }

  // ---------- Reward operations ----------

  /** The operation names the account in its role and the award, and nothing else. */
  predicate IsReward(op: Op, role: string, who: Bytes, award: string) {
    op.params == map[role := HexString(who), PARAM_AWARD := award] && |who| > 0
  }

  /** Parameter by parameter, whatever a parameter says of the reward. */
  predicate ParamOk(key: string, value: string, role: string, who: Bytes, award: string) {
    if key == role then value == HexString(who) else key == PARAM_AWARD && value == award
  }

  /** What the parameters read so far have settled. */
  ghost predicate ReadSoFar(params: map<string, string>, seen: set<string>, role: string, who: Bytes, award: string,
                            units: U64,
                            valid: bool, account: string, amount: U64)
  {
    && (valid <==> forall k :: k in seen && k in params ==> ParamOk(k, params[k], role, who, award))
    && account == (if role in seen && role in params && params[role] == HexString(who) then HexString(who) else "")
    && amount == (if PARAM_AWARD in seen && PARAM_AWARD in params && params[PARAM_AWARD] == award then units else 0)
  }

  lemma ReadAll(op: Op, role: string, who: Bytes, award: string, units: U64, valid: bool, account: string, amount: U64)
    requires role != PARAM_AWARD && units > 0
    requires ReadSoFar(op.params, op.params.Keys, role, who, award, units, valid, account, amount)
    ensures valid && |account| > 0 && amount > 0 <==> IsReward(op, role, who, award)
    ensures IsReward(op, role, who, award) ==> account == HexString(who) && amount == units
  {
    var expected := map[role := HexString(who), PARAM_AWARD := award];
    if valid && |account| > 0 && amount > 0 {
      assert role in op.params && PARAM_AWARD in op.params;
      forall k | k in op.params ensures k in expected && op.params[k] == expected[k] {
        assert ParamOk(k, op.params[k], role, who, award);
      }
      assert op.params == expected;
    }
  }

  /** Reads one reward operation, its parameters in any order; None if it is not the expected reward. */
  method ReadReward(op: Op, role: string, who: Bytes, award: string, ghost units: U64)
    returns (reward: Option<(string, U64)>)
    requires role != PARAM_AWARD && ParseUint(award) == Some(units) && units > 0
    ensures reward.Some? <==> IsReward(op, role, who, award)
    ensures reward.Some? ==> reward.value == (HexString(who), units)
  {
    var validOp, account, amount: U64 := true, "", 0;
    var left := op.params.Keys;
    while left != {}
      invariant left <= op.params.Keys
      invariant ReadSoFar(op.params, op.params.Keys - left, role, who, award, units, validOp, account, amount)
      decreases left
    {
      var key :| key in left;
      var value := op.params[key];
      assert op.params.Keys - (left - {key}) == op.params.Keys - left + {key};
      if key == role {
        if value != HexString(who) {
          validOp := false;
        } else {
          account := value;
        }
      } else if key == PARAM_AWARD {
        if value != award {
          validOp := false;
        } else {
          var parsed := ParseUint(value);
          if parsed.None? {
            validOp := false;
          } else {
            amount := parsed.value;
          }
        }
      } else {
        validOp := false;
      }
      assert ParamOk(key, value, role, who, award) || !validOp;
      left := left - {key};
    }
    assert op.params.Keys - {} == op.params.Keys;
    ReadAll(op, role, who, award, units, validOp, account, amount);
    return if validOp && |account| > 0 && amount > 0 then Some((account, amount)) else None;
  }

  predicate MinerReward(op: Op, submitter: Bytes) {
    IsReward(op, PARAM_MINER, submitter, MINER_AWARD)
  }

  predicate UncleReward(op: Op, uncle: Bytes) {
    IsReward(op, PARAM_UNCLE, uncle, UNCLE_AWARD)
  }

  method ReadMinerReward(op: Op, miner: Bytes) returns (reward: Option<(string, U64)>)
    ensures reward.Some? <==> MinerReward(op, miner)
    ensures reward.Some? ==> reward.value == (HexString(miner), MINER_UNITS)
  {
    AwardsParse();
    reward := ReadReward(op, PARAM_MINER, miner, MINER_AWARD, MINER_UNITS);
  }

  method ReadUncleReward(op: Op, uncle: Bytes) returns (reward: Option<(string, U64)>)
    ensures reward.Some? <==> UncleReward(op, uncle)
    ensures reward.Some? ==> reward.value == (HexString(uncle), UNCLE_UNITS)
  {
    AwardsParse();
    reward := ReadReward(op, PARAM_UNCLE, uncle, UNCLE_AWARD, UNCLE_UNITS);
  }

  // ---------- A block's rewards ----------

  /** The operations are exactly one miner award and one award per uncle, in order. */
  predicate RewardsOk(ops: seq<Op>, submitter: Bytes, uncles: seq<Bytes>) {
    && |ops| == 1 + |uncles| && MinerReward(ops[0], submitter)
    && forall i :: 0 <= i < |uncles| ==> UncleReward(ops[i + 1], uncles[i])
  }

  /** The operations after the first are the rewards of the first n uncles. */
  predicate UnclesOk(ops: seq<Op>, uncles: seq<Bytes>, n: nat)
    requires |ops| == 1 + |uncles| && n <= |uncles|
  {
    n == 0 || (UnclesOk(ops, uncles, n - 1) && UncleReward(ops[n], uncles[n - 1]))
  }

  lemma {:induction false} UnclesOkAll(ops: seq<Op>, uncles: seq<Bytes>, n: nat)
    requires |ops| == 1 + |uncles| && n <= |uncles|
    ensures UnclesOk(ops, uncles, n) <==> forall i :: 0 <= i < n ==> UncleReward(ops[i + 1], uncles[i])
    decreases n
  {
    if n > 0 {
      UnclesOkAll(ops, uncles, n - 1);
    }
  }

  /** The first n operations are the rewards due and the next one is not. */
  predicate StopsAt(ops: seq<Op>, submitter: Bytes, uncles: seq<Bytes>, n: nat) {
    && |ops| == 1 + |uncles| && n < |ops|
    && (if n == 0 then !MinerReward(ops[0], submitter)
        else MinerReward(ops[0], submitter) && UnclesOk(ops, uncles, n - 1) && !UnclesOk(ops, uncles, n))
  }

  /** The credit the i-th reward stands for. */
  function Payout(submitter: Bytes, uncles: seq<Bytes>, i: nat): (string, U64)
    requires i <= |uncles|
  {
    if i == 0 then (HexString(submitter), MINER_UNITS) else (HexString(uncles[i - 1]), UNCLE_UNITS)
  }

  /** The accounts after the first n rewards. */
  function Paid(m: Accounts, submitter: Bytes, uncles: seq<Bytes>, n: nat): Accounts
    requires n <= 1 + |uncles|
  {
    if n == 0 then m
    else
      var (account, amount) := Payout(submitter, uncles, n - 1);
      Credited(Paid(m, submitter, uncles, n - 1), account, amount)
  }

  lemma PaidNext(m: Accounts, submitter: Bytes, uncles: seq<Bytes>, n: nat, paid: Accounts, payout: (string, U64))
    requires n <= |uncles| && paid == Paid(m, submitter, uncles, n) && payout == Payout(submitter, uncles, n)
    ensures Credited(paid, payout.0, payout.1) == Paid(m, submitter, uncles, n + 1)
  {
  }

  /** The amount minted by a block's first n rewards. */
  function Minted(n: nat): nat {
    if n == 0 then 0 else MINER_UNITS + (n - 1) * UNCLE_UNITS
  }

  lemma {:induction false} PaidTotal(m: Accounts, submitter: Bytes, uncles: seq<Bytes>, n: nat)
    requires n <= 1 + |uncles| && Total(m) + Minted(n) < TWO64
    ensures Total(Paid(m, submitter, uncles, n)) == Total(m) + Minted(n)
    decreases n
  {
    if n > 0 {
      PaidTotal(m, submitter, uncles, n - 1);
      var before, payout := Paid(m, submitter, uncles, n - 1), Payout(submitter, uncles, n - 1);
      PaidNext(m, submitter, uncles, n - 1, before, payout);
      assert Minted(n) == Minted(n - 1) + payout.1;
      CreditTotal(before, payout.0, payout.1);
    }
  }

  /** How many of the first n uncles have this account. */
  function Mentions(uncles: seq<Bytes>, n: nat, account: string): nat
    requires n <= |uncles|
  {
    if n == 0 then 0 else Mentions(uncles, n - 1, account) + if HexString(uncles[n - 1]) == account then 1 else 0
  }

  /** What the miner's reward and those of the first n uncles are for an account. */
  function Due(submitter: Bytes, uncles: seq<Bytes>, n: nat, account: string): nat
    requires n <= |uncles|
  {
    (if HexString(submitter) == account then 1000000 else 0) + 200000 * Mentions(uncles, n, account)
  }

  lemma DueNext(submitter: Bytes, uncles: seq<Bytes>, n: nat, account: string)
    requires 0 < n <= |uncles|
    ensures Due(submitter, uncles, n, account)
            == Due(submitter, uncles, n - 1, account) + if HexString(uncles[n - 1]) == account then 200000 else 0
  {
  }

  function Wrapped(n: nat): U64 {
    n % TWO64
  }

  /** Credits add up modulo 2^64. */
  lemma CreditBalance(m: Accounts, a: string, delta: U64, b: string, base: nat)
    requires Balance(m, b) == Wrapped(base)
    ensures Balance(Credited(m, a, delta), b) == Wrapped(base + if b == a then delta else 0)
  {
    if b == a {
      assert Balance(Credited(m, a, delta), b) == Plus(Wrapped(base), delta);
    }
  }

  lemma PaidStep(m: Accounts, submitter: Bytes, uncles: seq<Bytes>, n: nat, account: string, base: nat)
    requires n <= |uncles| && Balance(Paid(m, submitter, uncles, n), account) == Wrapped(base)
    ensures var payout := Payout(submitter, uncles, n);
      Balance(Paid(m, submitter, uncles, n + 1), account)
      == Wrapped(base + if account == payout.0 then payout.1 else 0)
  {
    var before, payout := Paid(m, submitter, uncles, n), Payout(submitter, uncles, n);
    PaidNext(m, submitter, uncles, n, before, payout);
    CreditBalance(before, payout.0, payout.1, account, base);
  }

  /** An account's balance is this number, modulo 2^64. */
  predicate Holds(m: Accounts, account: string, base: nat) {
    Balance(m, account) == Wrapped(base)
  }

  lemma PaidMiner(m: Accounts, submitter: Bytes, uncles: seq<Bytes>, account: string)
    ensures Holds(Paid(m, submitter, uncles, 1), account, Balance(m, account) + Due(submitter, uncles, 0, account))
  {
    PaidStep(m, submitter, uncles, 0, account, Balance(m, account));
  }

  lemma PaidUncle(m: Accounts, submitter: Bytes, uncles: seq<Bytes>, n: nat, account: string, base: nat)
    requires 0 < n <= |uncles|
    requires Holds(Paid(m, submitter, uncles, n), account, base + Due(submitter, uncles, n - 1, account))
    ensures Holds(Paid(m, submitter, uncles, n + 1), account, base + Due(submitter, uncles, n, account))
  {
    DueNext(submitter, uncles, n, account);
    PaidStep(m, submitter, uncles, n, account, base + Due(submitter, uncles, n - 1, account));
  }

  /**
    Who is paid: after the miner's reward and those of the first n uncles every account holds what it
    held, plus 1000000 if it is the miner's, plus 200000 for each of these uncles it belongs to,
    modulo 2^64.
  */
  lemma {:induction false} PaidBalances(m: Accounts, submitter: Bytes, uncles: seq<Bytes>, n: nat, account: string)
    requires n <= |uncles|
    ensures Holds(Paid(m, submitter, uncles, n + 1), account, Balance(m, account) + Due(submitter, uncles, n, account))
    decreases n
  {
    if n == 0 {
      PaidMiner(m, submitter, uncles, account);
    } else {
      PaidBalances(m, submitter, uncles, n - 1, account);
      PaidUncle(m, submitter, uncles, n, account, Balance(m, account));
    }
  }

  /** Nothing wraps around while the sum of all balances stays below 2^64. */
  lemma PaidExactly(m: Accounts, submitter: Bytes, uncles: seq<Bytes>, n: nat, account: string)
    requires n <= |uncles| && Total(m) + Minted(n + 1) < TWO64
    ensures Balance(Paid(m, submitter, uncles, n + 1), account)
            == Balance(m, account) + Due(submitter, uncles, n, account)
  {
    PaidBalances(m, submitter, uncles, n, account);
    BalanceBelowTotal(m, account);
    DueBelowMinted(submitter, uncles, n, account);
  }

  lemma {:induction false} DueBelowMinted(submitter: Bytes, uncles: seq<Bytes>, n: nat, account: string)
    requires n <= |uncles|
    ensures Due(submitter, uncles, n, account) <= Minted(n + 1)
    decreases n
  {
    if n > 0 {
      DueBelowMinted(submitter, uncles, n - 1, account);
    }
  }

  /** The operations a miner puts into its reward transaction. */
  function RewardOps(address: Bytes, uncles: seq<Bytes>): seq<Op> {
    [Op(OP_REWARD, map[PARAM_MINER := HexString(address), PARAM_AWARD := MINER_AWARD])]
    + seq(|uncles|, i requires 0 <= i < |uncles| =>
        Op(OP_REWARD, map[PARAM_UNCLE := HexString(uncles[i]), PARAM_AWARD := UNCLE_AWARD]))
  }

  method BuildRewardOps(address: Bytes, uncles: seq<Bytes>) returns (ops: seq<Op>)
    ensures ops == RewardOps(address, uncles)
  {
    ops := [Op(OP_REWARD, map[PARAM_MINER := HexString(address), PARAM_AWARD := MINER_AWARD])];
    for i := 0 to |uncles|
      invariant ops == RewardOps(address, uncles)[..i + 1]
    {
      var params := map[];
      params := params[PARAM_UNCLE := HexString(uncles[i])];
      params := params[PARAM_AWARD := UNCLE_AWARD];
      assert RewardOps(address, uncles)[i + 1] == Op(OP_REWARD, params);
      ops := ops + [Op(OP_REWARD, params)];
    }
  }

  /** Each built operation is the reward due, provided the address is not empty. */
  lemma BuiltAt(address: Bytes, uncles: seq<Bytes>, i: nat)
    requires i < |uncles|
    ensures UncleReward(RewardOps(address, uncles)[i + 1], uncles[i]) <==> uncles[i] != []
  {
    assert RewardOps(address, uncles)[i + 1].params
           == map[PARAM_UNCLE := HexString(uncles[i]), PARAM_AWARD := UNCLE_AWARD];
  }

  /**
    What a miner builds is accepted by every peer with the same list of uncle miners, exactly when no
    address is empty.
  */
  lemma BuiltIsAccepted(address: Bytes, uncles: seq<Bytes>)
    ensures RewardsOk(RewardOps(address, uncles), address, uncles) <==>
      address != [] && forall u :: u in uncles ==> u != []
  {
    var ops := RewardOps(address, uncles);
    forall i | 0 <= i < |uncles|
      ensures UncleReward(ops[i + 1], uncles[i]) <==> uncles[i] != []
    {
      BuiltAt(address, uncles, i);
    }
    assert MinerReward(ops[0], address) <==> address != [];
    if RewardsOk(ops, address, uncles) {
      forall u | u in uncles ensures u != [] {
        var i :| 0 <= i < |uncles| && uncles[i] == u;
        assert UncleReward(ops[i + 1], uncles[i]);
      }
    } else if address != [] {
      var i :| 0 <= i < |uncles| && !UncleReward(ops[i + 1], uncles[i]);
      assert uncles[i] in uncles;
    }
  }

  /** Operations are accepted exactly if no address is empty and they carry the parameters a miner would give them. */
  lemma OnlyBuiltIsAccepted(ops: seq<Op>, submitter: Bytes, uncles: seq<Bytes>)
    ensures RewardsOk(ops, submitter, uncles) <==>
      && submitter != [] && (forall u :: u in uncles ==> u != [])
      && |ops| == 1 + |uncles| && ops[0].params == map["MINER" := HexString(submitter), "AWARD" := "1000000"]
      && forall i :: 0 <= i < |uncles| ==> ops[i + 1].params == UncleParams(uncles[i])
  {
    if |ops| == 1 + |uncles| {
      forall i | 0 <= i < |uncles|
        ensures UncleReward(ops[i + 1], uncles[i]) <==> ops[i + 1].params == UncleParams(uncles[i]) && uncles[i] != []
        ensures uncles[i] in uncles
      {
      }
      forall u | u in uncles && RewardsOk(ops, submitter, uncles) ensures u != [] {
        var i :| 0 <= i < |uncles| && uncles[i] == u;
        assert UncleReward(ops[i + 1], uncles[i]);
      }
    }
  }

  function UncleParams(uncle: Bytes): map<string, string> {
    map["UNCLE" := HexString(uncle), "AWARD" := "200000"]
  }

  /** Two engines that hold the same blocks at these hashes list the same miners. */
  lemma SameMiners(mine: Blocks, theirs: Blocks, us: seq<Hash>)
    requires forall h :: h in mine && h in theirs ==> mine[h] == theirs[h]
    requires forall u :: u in us ==> u in mine && u in theirs
    ensures MinersOf(mine, us) == MinersOf(theirs, us)
  {
    forall i | 0 <= i < |us| ensures MinersOf(mine, us)[i] == MinersOf(theirs, us)[i] {
      assert us[i] in us;
    }
  }

  /**
    A candidate's reward operations against the uncle miners a peer's validator lists for it: if the
    peer's validation passes they are the rewards due, exactly when no address is empty.
  */
  method CandidateRewards(mine: Dag, theirs: Dag, address: Bytes, hash: Digest64, state: Hash, txs: seq<Hash>)
    returns (ops: seq<Op>, b: Block, failed: Option<Verdict>, miners: seq<Bytes>)
    requires Consistent(mine) && Consistent(theirs)
    requires forall h :: h in mine.blocks && h in theirs.blocks ==> mine.blocks[h] == theirs.blocks[h]
    ensures b.parent == mine.tip.hash && ops == RewardOps(address, MinersOf(mine.blocks, b.uncles))
    ensures failed == Validate(theirs.blocks, b)
    ensures failed.None? ==> (RewardsOk(ops, address, miners) <==> address != [] && forall u :: u in miners ==> u != [])
  {
    var c := NewCandidateBlock(mine, address);
    ops := BuildRewardOps(address, c.uncleMiners);
    b := Seal(c, hash, state, txs);
    failed, miners := ValidateBlock(theirs, b, []);
    if failed.None? {
      forall u | u in b.uncles ensures u in mine.blocks && u in theirs.blocks {
        NearbyIsUncle(mine.blocks, mine.genesis, mine.tip.hash, u, mine.tip.depth);
        assert UncleOk(theirs.blocks, b.parent, u);
      }
      SameMiners(mine.blocks, theirs.blocks, b.uncles);
      BuiltIsAccepted(address, miners);
    }
  }

  class RewardBlock {
    var data: map<string, Bytes>
    ghost var accounts: Accounts
    const miner: Bytes
    const uncleMiners: seq<Bytes>

    ghost predicate Valid()
      reads this
    {
      Backs(data, accounts)
    }

    constructor (miner: Bytes, uncleMiners: seq<Bytes>)
      ensures Valid() && accounts == map[] && this.miner == miner && this.uncleMiners == uncleMiners
    {
      this.data, this.accounts, this.miner, this.uncleMiners := map[], map[], miner, uncleMiners;
    }

    /** The balance an account's bytes stand for, none for an unknown account. */
    method MiningRewardBalance(account: string) returns (balance: U64)
      requires Valid()
      ensures balance == Balance(accounts, account)
    {
      ReadsBalance(data, accounts, account);
      var bytes := if account in data then data[account] else [];
      var fitted := BytesToByte8(bytes);
      balance := Byte8ToUint64(fitted);
    }

    method Credit(account: string, delta: U64)
      requires Valid()
      modifies this
      ensures Valid() && accounts == Credited(old(accounts), account, delta)
    {
      var currVal := MiningRewardBalance(account);
      var newVal := Plus(currVal, delta);
      WritesBalance(data, accounts, account, newVal);
      data, accounts := data[account := Uint64ToByte8(newVal)], accounts[account := newVal];
    }

    /** False, and nothing changed, if the balance is too low. */
    method Debit(account: string, delta: U64) returns (ok: bool)
      requires Valid()
      modifies this
      ensures Valid() && ok == Debited(old(accounts), account, delta).Some?
      ensures accounts == if ok then Debited(old(accounts), account, delta).value else old(accounts)
    {
      var currVal := MiningRewardBalance(account);
      if currVal < delta {
        return false;
      }
      var newVal := currVal - delta;
      WritesBalance(data, accounts, account, newVal);
      data, accounts := data[account := Uint64ToByte8(newVal)], accounts[account := newVal];
      return true;
    }

    /** Checks and credits one uncle's reward. */
    method PayUncle(ops: seq<Op>, ghost m: Accounts, ghost submitter: Bytes, i: nat) returns (ok: bool)
      requires Valid() && |ops| == 1 + |uncleMiners| && i < |uncleMiners|
      requires UnclesOk(ops, uncleMiners, i) && accounts == Paid(m, submitter, uncleMiners, i + 1)
      modifies this
      ensures Valid() && (ok <==> UnclesOk(ops, uncleMiners, i + 1))
      ensures ok ==> accounts == Paid(m, submitter, uncleMiners, i + 2)
      ensures !ok ==> accounts == old(accounts)
    {
      var reward := ReadUncleReward(ops[i + 1], uncleMiners[i]);
      if reward.None? {
        return false;
      }
      PaidNext(m, submitter, uncleMiners, i + 1, accounts, reward.value);
      Credit(reward.value.0, reward.value.1);
      return true;
    }

    /** Checks and credits the uncles' rewards one after the other, up to the first wrong one. */
    method PayUncles(ops: seq<Op>, ghost m: Accounts, ghost submitter: Bytes) returns (ok: bool, ghost paid: nat)
      requires Valid() && |ops| == 1 + |uncleMiners| && accounts == Paid(m, submitter, uncleMiners, 1)
      modifies this
      ensures Valid() && 1 <= paid <= 1 + |uncleMiners| && accounts == Paid(m, submitter, uncleMiners, paid)
      ensures UnclesOk(ops, uncleMiners, paid - 1)
      ensures if ok then paid == 1 + |uncleMiners| else paid < |ops| && !UnclesOk(ops, uncleMiners, paid)
    {
      for i := 0 to |uncleMiners|
        invariant Valid() && accounts == Paid(m, submitter, uncleMiners, i + 1)
        invariant UnclesOk(ops, uncleMiners, i)
      {
        ok := PayUncle(ops, m, submitter, i);
        if !ok {
          return false, i + 1;
        }
      }
      return true, 1 + |uncleMiners|;
    }

    /**
      Checks the reward operations and credits them one after the other. On a wrong operation it
      stops, with the `paid` rewards before it already credited.
    */
    method Process(ops: seq<Op>, submitter: Bytes) returns (ok: bool, ghost paid: nat)
      requires Valid()
      modifies this
      ensures Valid() && (ok <==> RewardsOk(ops, submitter, uncleMiners))
      ensures paid <= 1 + |uncleMiners| && accounts == Paid(old(accounts), submitter, uncleMiners, paid)
      ensures ok ==> paid == 1 + |uncleMiners|
      ensures !ok ==> if |ops| != 1 + |uncleMiners| then paid == 0 else StopsAt(ops, submitter, uncleMiners, paid)
    {
      if |ops| != 1 + |uncleMiners| {
        return false, 0;
      }
      var reward := ReadMinerReward(ops[0], submitter);
      if reward.None? {
        return false, 0;
      }
      PaidNext(accounts, submitter, uncleMiners, 0, accounts, reward.value);
      Credit(reward.value.0, reward.value.1);
      ok, paid := PayUncles(ops, old(accounts), submitter);
      UnclesOkAll(ops, uncleMiners, if ok then |uncleMiners| else paid);
    }

    /**
      Checks a network block's reward transaction: signed, submitted by the block's miner, and exactly
      the rewards due. A rejected one has credited the `paid` rewards before the wrong operation.
    */
    method VerifyMiningRewardTx(ops: seq<Op>, submitter: Bytes, signed: bool) returns (ok: bool, ghost paid: nat)
      requires Valid()
      modifies this
      ensures Valid() && (ok <==> signed && submitter == miner && RewardsOk(ops, submitter, uncleMiners))
      ensures paid <= 1 + |uncleMiners| && accounts == Paid(old(accounts), submitter, uncleMiners, paid)
      ensures ok ==> paid == 1 + |uncleMiners|
      ensures !ok ==> if signed && submitter == miner && |ops| == 1 + |uncleMiners|
                      then StopsAt(ops, submitter, uncleMiners, paid) else paid == 0
    {
      if !signed {
        return false, 0;
      }
      if submitter != miner {
        return false, 0;
      }
      ok, paid := Process(ops, submitter);
    }
  }

  // ---------- Runs of rewards and transfers ----------

  datatype Move = Reward(submitter: Bytes, uncles: seq<Bytes>) | Transfer(source: string, target: string, amount: U64)

  /** A block's rewards, or a debit followed, if it succeeds, by a credit. */
  function Moved(m: Accounts, move: Move): Accounts {
    match move
    case Reward(submitter, uncles) => Paid(m, submitter, uncles, 1 + |uncles|)
    case Transfer(source, target, amount) =>
      var rest := Debited(m, source, amount);
      if rest.None? then m else Credited(rest.value, target, amount)
  }

  function MintedBy(move: Move): nat {
    if move.Reward? then Minted(1 + |move.uncles|) else 0
  }

  function RunMoves(m: Accounts, moves: seq<Move>): Accounts {
    if moves == [] then m else Moved(RunMoves(m, moves[..|moves| - 1]), moves[|moves| - 1])
  }

  function MintedByAll(moves: seq<Move>): nat {
    if moves == [] then 0 else MintedByAll(moves[..|moves| - 1]) + MintedBy(moves[|moves| - 1])
  }

  /** A transfer the source can pay moves the amount from source to target, modulo 2^64; any other changes nothing. */
  lemma TransferMoves(m: Accounts, source: string, target: string, amount: U64, b: string)
    ensures var m' := Moved(m, Transfer(source, target, amount));
      if Balance(m, source) < amount || source == target then Balance(m', b) == Balance(m, b)
      else if b == source then Balance(m', b) == Balance(m, b) - amount
      else if b == target then Balance(m', b) == (Balance(m, b) + amount) % TWO64
      else Balance(m', b) == Balance(m, b)
  {
  }

  /** A move raises the total by what it mints; a transfer leaves it as it is. */
  lemma MoveTotal(m: Accounts, move: Move)
    requires Total(m) + MintedBy(move) < TWO64
    ensures Total(Moved(m, move)) == Total(m) + MintedBy(move)
  {
    match move
    case Reward(submitter, uncles) => PaidTotal(m, submitter, uncles, 1 + |uncles|);
    case Transfer(source, target, amount) =>
      if Debited(m, source, amount).Some? {
        DebitTotal(m, source, amount);
        CreditTotal(Debited(m, source, amount).value, target, amount);
      }
  }

  /**
    Conservation: over any run the balances add up to what was there and what was minted, as long as
    that is below 2^64.
  */
  lemma {:induction false} RunConserves(m: Accounts, moves: seq<Move>)
    requires Total(m) + MintedByAll(moves) < TWO64
    ensures Total(RunMoves(m, moves)) == Total(m) + MintedByAll(moves)
  {
    if moves != [] {
      var front, last := moves[..|moves| - 1], moves[|moves| - 1];
      RunConserves(m, front);
      MoveTotal(RunMoves(m, front), last);
    }
  }
}
