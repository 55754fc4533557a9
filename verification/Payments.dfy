/** Gamemaster payments (src/gamemaster-payments.cpp, src/gamemaster-payments.h): the votes for who is
    paid in a block, the outputs a block producer adds, and the check of a block's payment.  The
    two sides agree, and no value is lost or created. */
module Payments {
  import opened Options
  import opened Powers

  type Script = seq<int>

  datatype TxOut = TxOut(nValue: int, scriptPubKey: Script)

  /** A payee and the votes for it. */
  datatype Payee = Payee(scriptPubKey: Script, nVotes: int)

  const SIGNATURES_REQUIRED := 6

  // ---------- The tally of one block ----------

  /** The votes a script has; a tally lists each script once. */
  ghost function Votes(tally: seq<Payee>, script: Script): int {
    if tally == [] then 0
    else
      var last := tally[|tally| - 1];
      Votes(tally[..|tally| - 1], script) + (if last.scriptPubKey == script then last.nVotes else 0)
  }

  ghost predicate Unique(tally: seq<Payee>) {
    forall i, j | 0 <= i < j < |tally| :: tally[i].scriptPubKey != tally[j].scriptPubKey
  }

  lemma {:induction false} VotesUpdate(tally: seq<Payee>, i: nat, n: int, script: Script)
    requires i < |tally|
    ensures Votes(tally[i := tally[i].(nVotes := tally[i].nVotes + n)], script)
         == Votes(tally, script) + if tally[i].scriptPubKey == script then n else 0
  {
    var k := |tally| - 1;
    var t := tally[i := tally[i].(nVotes := tally[i].nVotes + n)];
    if i < k {
      VotesUpdate(tally[..k], i, n, script);
      assert t[..k] == tally[..k][i := tally[i].(nVotes := tally[i].nVotes + n)];
    } else {
      assert t[..k] == tally[..k];
    }
  }

  /** The payee that GetPayee reports: the first of those with the most votes, if any has at least none. */
  ghost predicate IsWinner(tally: seq<Payee>, script: Script) {
    exists i | 0 <= i < |tally| ::
      && tally[i].scriptPubKey == script && tally[i].nVotes >= 0
      && (forall j | 0 <= j < |tally| :: tally[j].nVotes <= tally[i].nVotes)
      && (forall j | 0 <= j < i :: tally[j].nVotes < tally[i].nVotes)
  }

  predicate Elected(p: Payee) { p.nVotes >= SIGNATURES_REQUIRED }

  /** A transaction pays what it must to a payee. */
  predicate Pays(vout: seq<TxOut>, script: Script, value: int) { TxOut(value, script) in vout }

  /** The check against the votes: nobody has enough of them, or somebody who has is paid. */
  predicate TallyAccepts(tally: seq<Payee>, vout: seq<TxOut>, required: int) {
    || (forall i | 0 <= i < |tally| :: !Elected(tally[i]))
    || (exists i | 0 <= i < |tally| :: Elected(tally[i]) && Pays(vout, tally[i].scriptPubKey, required))
  }

  /** If anybody has enough votes, the winner has. */
  lemma {:induction false} WinnerAccepted(tally: seq<Payee>, script: Script, vout: seq<TxOut>, required: int)
    requires IsWinner(tally, script) && Pays(vout, script, required)
    ensures TallyAccepts(tally, vout, required)
  {
    var w :| 0 <= w < |tally| && tally[w].scriptPubKey == script
      && forall j | 0 <= j < |tally| :: tally[j].nVotes <= tally[w].nVotes;
    if i :| 0 <= i < |tally| && Elected(tally[i]) {
      assert Elected(tally[w]);
    }
  }

  /** Without a winner nobody has enough votes. */
  lemma {:induction false} NoWinnerAccepted(tally: seq<Payee>, vout: seq<TxOut>, required: int)
    requires forall i | 0 <= i < |tally| :: tally[i].nVotes < 0
    ensures TallyAccepts(tally, vout, required)
  {
  }

  class BlockPayees {
    var vecPayments: seq<Payee>

    constructor ()
      ensures vecPayments == []
    {
      vecPayments := [];
    }

    method AddPayee(payeeIn: Script, nIncrement: int)
      requires Unique(vecPayments)
      modifies this
      ensures Unique(vecPayments)
      ensures forall s :: Votes(vecPayments, s) == Votes(old(vecPayments), s) + if s == payeeIn then nIncrement else 0
    {
      var i := 0;
      while i < |vecPayments|
        invariant 0 <= i <= |vecPayments| && vecPayments == old(vecPayments)
        invariant forall j | 0 <= j < i :: vecPayments[j].scriptPubKey != payeeIn
      {
        if vecPayments[i].scriptPubKey == payeeIn {
          forall s ensures Votes(vecPayments[i := vecPayments[i].(nVotes := vecPayments[i].nVotes + nIncrement)], s)
                        == Votes(vecPayments, s) + if s == payeeIn then nIncrement else 0
          {
            VotesUpdate(vecPayments, i, nIncrement, s);
          }
          vecPayments := vecPayments[i := vecPayments[i].(nVotes := vecPayments[i].nVotes + nIncrement)];
          return;
        }
        i := i + 1;
      }
      vecPayments := vecPayments + [Payee(payeeIn, nIncrement)];
      assert vecPayments[..|vecPayments| - 1] == old(vecPayments);
    }

    method GetPayee() returns (r: Option<Script>)
      ensures match r
        case Some(script) => IsWinner(vecPayments, script)
        case None => forall i | 0 <= i < |vecPayments| :: vecPayments[i].nVotes < 0
    {
      var nVotes := -1;
      r := None;
      ghost var w := 0;
      var i := 0;
      while i < |vecPayments|
        invariant 0 <= i <= |vecPayments| && nVotes >= -1
        invariant forall j | 0 <= j < i :: vecPayments[j].nVotes <= nVotes
        invariant nVotes == -1 <==> r.None?
        invariant r.Some? ==>
          && 0 <= w < i && vecPayments[w] == Payee(r.value, nVotes)
          && forall j | 0 <= j < w :: vecPayments[j].nVotes < nVotes
      {
        if vecPayments[i].nVotes > nVotes {
          r := Some(vecPayments[i].scriptPubKey);
          nVotes := vecPayments[i].nVotes;
          w := i;
        }
        i := i + 1;
      }
    }

    method IsTransactionValid(vout: seq<TxOut>, required: int) returns (ok: bool)
      ensures ok <==> TallyAccepts(vecPayments, vout, required)
    {
      var nMaxSignatures := 0;
      var i := 0;
      while i < |vecPayments|
        invariant 0 <= i <= |vecPayments| && nMaxSignatures >= 0
        invariant nMaxSignatures >= SIGNATURES_REQUIRED <==> exists j | 0 <= j < i :: Elected(vecPayments[j])
      {
        var n := vecPayments[i].nVotes;
        if n >= nMaxSignatures && n >= SIGNATURES_REQUIRED { nMaxSignatures := n; }
        i := i + 1;
      }
      if nMaxSignatures < SIGNATURES_REQUIRED { return true; }
      i := 0;
      while i < |vecPayments|
        invariant 0 <= i <= |vecPayments|
        invariant forall j | 0 <= j < i :: !(Elected(vecPayments[j]) && Pays(vout, vecPayments[j].scriptPubKey, required))
      {
        var payee := vecPayments[i];
        var found := false;
        var k := 0;
        while k < |vout|
          invariant 0 <= k <= |vout| && (found <==> TxOut(required, payee.scriptPubKey) in vout[..k])
        {
          if payee.scriptPubKey == vout[k].scriptPubKey && vout[k].nValue == required { found := true; }
          k := k + 1;
        }
        assert vout[..k] == vout;
        if payee.nVotes >= SIGNATURES_REQUIRED && found { return true; }
        i := i + 1;
      }
      return false;
    }
  }

  // ---------- The outputs to add ----------

  /** A deterministic gamemaster to be paid; its operator may get a share in hundredths of a percent. */
  datatype Deterministic = Deterministic(nOperatorReward: nat, scriptPayout: Script, scriptOperatorPayout: Script)

  /** What the rest of the node says about the next block. */
  datatype Situation = Situation(
    legacyObsolete: bool,                   // LegacyGMObsolete
    dgmPayee: Option<Deterministic>,        // GetListForBlock(..).GetGMPayee()
    payment: nat,                           // GetGamemasterPayment
    currentGamemaster: Option<Script>,      // GetCurrentGameMaster(..)
    v6: bool,                               // NetworkUpgradeActive(UPGRADE_V6_0)
    blockValue: nat)                        // GetBlockValue

  function OperatorShare(d: Deterministic, payment: nat): nat {
    if d.nOperatorReward != 0 && d.scriptOperatorPayout != [] then payment * d.nOperatorReward / 10000 else 0
  }

  /** The outputs for a deterministic gamemaster. */
  function Shares(d: Deterministic, payment: nat): seq<TxOut> {
    var share := OperatorShare(d, payment);
    (if payment - share > 0 then [TxOut(payment - share, d.scriptPayout)] else [])
    + (if share > 0 then [TxOut(share, d.scriptOperatorPayout)] else [])
  }

  function Total(vout: seq<TxOut>): int {
    if vout == [] then 0 else Total(vout[..|vout| - 1]) + vout[|vout| - 1].nValue
  }

  lemma {:induction false} TotalAppend(a: seq<TxOut>, b: seq<TxOut>)
    ensures Total(a + b) == Total(a) + Total(b)
  {
    if b == [] {
      assert a + b == a;
    } else {
      TotalAppend(a, b[..|b| - 1]);
      assert (a + b)[..|a + b| - 1] == a + b[..|b| - 1];
    }
  }

  lemma {:induction false} TotalUpdate(vout: seq<TxOut>, i: nat, v: int)
    requires i < |vout|
    ensures Total(vout[i := vout[i].(nValue := v)]) == Total(vout) + v - vout[i].nValue
  {
    var n := |vout| - 1;
    var w := vout[i := vout[i].(nValue := v)];
    if i < n {
      TotalUpdate(vout[..n], i, v);
      assert w[..n] == vout[..n][i := vout[i].(nValue := v)];
    } else {
      assert w[..n] == vout[..n];
    }
  }

  /** What the outputs pay to a script. */
  function Paid(vout: seq<TxOut>, script: Script): int {
    if vout == [] then 0
    else Paid(vout[..|vout| - 1], script) + if vout[|vout| - 1].scriptPubKey == script then vout[|vout| - 1].nValue else 0
  }

  lemma {:induction false} PaidAppend(a: seq<TxOut>, b: seq<TxOut>, script: Script)
    ensures Paid(a + b, script) == Paid(a, script) + Paid(b, script)
  {
    if b == [] {
      assert a + b == a;
    } else {
      PaidAppend(a, b[..|b| - 1], script);
      assert (a + b)[..|a + b| - 1] == a + b[..|b| - 1];
    }
  }

  lemma {:induction false} PaidOne(o: TxOut, script: Script)
    ensures Paid([o], script) == if o.scriptPubKey == script then o.nValue else 0
  {
    assert [o][..0] == [];
  }

  /** The operator gets nOperatorReward hundredths of a percent if there is a script for it, the owner the rest,
      and nobody else anything. */
  ghost predicate PaysBoth(outs: seq<TxOut>, d: Deterministic, payment: nat) {
    var share := if d.scriptOperatorPayout == [] then 0 else payment * d.nOperatorReward / 10000;
    forall script ::
      Paid(outs, script) == (if script == d.scriptPayout then Max(0, payment - share) else 0)
                            + (if script == d.scriptOperatorPayout then share else 0)
  }

  lemma {:induction false} SharesPaid(d: Deterministic, payment: nat)
    ensures PaysBoth(Shares(d, payment), d, payment)
  {
    hide Paid;
    var share := OperatorShare(d, payment);
    ShareIs(d, payment);
    var own, op := TxOut(payment - share, d.scriptPayout), TxOut(share, d.scriptOperatorPayout);
    var a, b := if payment - share > 0 then [own] else [], if share > 0 then [op] else [];
    forall script ensures Paid(a + b, script) == (if script == d.scriptPayout then Max(0, payment - share) else 0)
                                               + (if script == d.scriptOperatorPayout then share else 0)
    {
      PaidNone(script);
      PaidOne(own, script);
      PaidOne(op, script);
      PaidAppend(a, b, script);
    }
  }

  lemma {:induction false} PaidNone(script: Script)
    ensures Paid([], script) == 0
  {
  }

  lemma {:induction false} ShareIs(d: Deterministic, payment: nat)
    ensures OperatorShare(d, payment) == if d.scriptOperatorPayout == [] then 0 else payment * d.nOperatorReward / 10000
  {
    if d.nOperatorReward == 0 { assert payment * d.nOperatorReward == 0; }
  }

  lemma {:induction false} ShareBound(d: Deterministic, payment: nat)
    requires d.nOperatorReward <= 10000
    ensures OperatorShare(d, payment) <= payment
  {
    TimesMore(payment, d.nOperatorReward, 10000);
    TenThousandth(payment * d.nOperatorReward, payment);
  }

  lemma {:induction false} TimesMore(p: nat, a: nat, b: nat)
    requires a <= b
    ensures 0 <= p * a <= p * b
  {
    MulMono(p, p, a, b);
  }

  lemma {:induction false} TenThousandth(x: nat, p: nat)
    requires x <= p * 10000
    ensures x / 10000 <= p
  {
  }

  lemma {:induction false} TotalOne(o: TxOut)
    ensures Total([o]) == o.nValue
  {
    assert [o][..0] == [];
  }

  /** The shares add up to the payment, or to the operator's share if that is more; it never is up to 100%. */
  lemma {:induction false} SharesTotal(d: Deterministic, payment: nat)
    ensures Total(Shares(d, payment)) == Max(payment, OperatorShare(d, payment))
    ensures Total(Shares(d, payment)) == payment <==> OperatorShare(d, payment) <= payment
    ensures d.nOperatorReward <= 10000 ==> Total(Shares(d, payment)) == payment
  {
    hide OperatorShare;
    if d.nOperatorReward <= 10000 { ShareBound(d, payment); }
    var share := OperatorShare(d, payment);
    var own, op := TxOut(payment - share, d.scriptPayout), TxOut(share, d.scriptOperatorPayout);
    TotalOne(own);
    TotalOne(op);
    TotalAppend(if payment - share > 0 then [own] else [], if share > 0 then [op] else []);
  }

  /** An operator with 200% is paid twice the payment. */
  lemma {:induction false} OversizedShare()
    ensures Total(Shares(Deterministic(20000, [1], [2]), 10)) == 20
  {
    SharesTotal(Deterministic(20000, [1], [2]), 10);
  }

  /** What the gamemaster's outputs are worth. */
  function Due(s: Situation): nat {
    if s.legacyObsolete && s.dgmPayee.Some? then Max(s.payment, OperatorShare(s.dgmPayee.value, s.payment)) else s.payment
  }

  /** What GetGamemasterTxOuts may give: nothing, or outputs worth the payment that the check looks for. */
  ghost predicate RightOuts(s: Situation, tally: seq<Payee>, r: Option<seq<TxOut>>) {
    if s.legacyObsolete then
      r == if s.dgmPayee.Some? then Some(Shares(s.dgmPayee.value, s.payment)) else None
    else match r
      case Some(outs) =>
        |outs| == 1 && outs[0].nValue == s.payment
        && (IsWinner(tally, outs[0].scriptPubKey)
            || ((forall i | 0 <= i < |tally| :: tally[i].nVotes < 0) && s.currentGamemaster == Some(outs[0].scriptPubKey)))
      case None => (forall i | 0 <= i < |tally| :: tally[i].nVotes < 0) && s.currentGamemaster.None?
  }

  /** The check of a block's payment. */
  ghost predicate Accepts(s: Situation, tally: seq<Payee>, vout: seq<TxOut>) {
    if s.legacyObsolete then s.dgmPayee.None? || forall o | o in Shares(s.dgmPayee.value, s.payment) :: o in vout
    else TallyAccepts(tally, vout, s.payment)
  }

  /** For a deterministic gamemaster, accepted is what has an output with each part that is positive. */
  lemma {:induction false} AcceptsMeans(s: Situation, tally: seq<Payee>, vout: seq<TxOut>)
    requires s.legacyObsolete && s.dgmPayee.Some?
    ensures var d := s.dgmPayee.value;
      var share := if d.scriptOperatorPayout == [] then 0 else s.payment * d.nOperatorReward / 10000;
      Accepts(s, tally, vout) <==>
        && (s.payment - share > 0 ==> TxOut(s.payment - share, d.scriptPayout) in vout)
        && (share > 0 ==> TxOut(share, d.scriptOperatorPayout) in vout)
  {
    ShareIs(s.dgmPayee.value, s.payment);
    hide OperatorShare;
  }

  /** A transaction with the outputs that were asked for is accepted. */
  lemma {:induction false} RightOutsAccepted(s: Situation, tally: seq<Payee>, r: Option<seq<TxOut>>, vout: seq<TxOut>)
    requires RightOuts(s, tally, r) && (r.Some? ==> forall o | o in r.value :: o in vout)
    ensures Accepts(s, tally, vout)
  {
    if !s.legacyObsolete {
      if r.Some? && IsWinner(tally, r.value[0].scriptPubKey) {
        assert r.value[0] in r.value;
        WinnerAccepted(tally, r.value[0].scriptPubKey, vout, s.payment);
      } else {
        NoWinnerAccepted(tally, vout, s.payment);
      }
    }
  }

  lemma {:induction false} RightOutsTotal(s: Situation, tally: seq<Payee>, r: Option<seq<TxOut>>)
    requires RightOuts(s, tally, r) && r.Some?
    ensures Total(r.value) == Due(s)
  {
    if s.legacyObsolete {
      SharesTotal(s.dgmPayee.value, s.payment);
    } else {
      assert r.value[..0] == [];
    }
  }

  class MutableTransaction {
    var vout: seq<TxOut>
  }

  // ---------- Paying ----------

  function Split(payment: nat, outputs: nat): nat
    requires outputs > 0
  {
    payment / outputs
  }

  /** What an even division leaves over. */
  function Dust(payment: nat, outputs: nat): int
    requires outputs > 0
  {
    payment - Split(payment, outputs) * outputs
  }

  /** The stake outputs 1.. give up the payment in equal parts, the last one also the dust; output 0 nothing. */
  ghost predicate Reduced(before: seq<TxOut>, after: seq<TxOut>, payment: nat, stakerOuts: nat)
    requires 2 <= stakerOuts <= |before| && stakerOuts <= |after|
  {
    var outputs := stakerOuts - 1;
    && after[0] == before[0]
    && forall j | 1 <= j <= outputs ::
         after[j] == before[j].(nValue := before[j].nValue - Split(payment, outputs) - if j == outputs then Dust(payment, outputs) else 0)
  }

  lemma {:induction false} ReducedStart(before: seq<TxOut>, more: seq<TxOut>, after: seq<TxOut>, payment: nat)
    requires 2 <= |before| <= |after| && Reduced(before + more, after, payment, |before|)
    ensures Reduced(before, after, payment, |before|)
  {
    hide Split, Dust;
    assert forall j | 0 <= j < |before| :: (before + more)[j] == before[j];
  }

  lemma {:induction false} SplitByOne(payment: nat)
    ensures Split(payment, 1) == payment && Dust(payment, 1) == 0
  {
  }

  /** SubtractGmPaymentFromCoinstake: the first output is a marker, the others carry the stake. */
  method SubtractFromCoinstake(tx: MutableTransaction, payment: nat, stakerOuts: nat)
    requires 2 <= stakerOuts <= |tx.vout|
    modifies tx
    ensures |tx.vout| == old(|tx.vout|) && tx.vout[stakerOuts..] == old(tx.vout[stakerOuts..])
    ensures Total(tx.vout) == old(Total(tx.vout)) - payment
    ensures Reduced(old(tx.vout), tx.vout, payment, stakerOuts)
  {
    if stakerOuts == 2 {
      hide Split, Dust, Total;
      SplitByOne(payment);
      TotalUpdate(tx.vout, 1, tx.vout[1].nValue - payment);
      tx.vout := tx.vout[1 := tx.vout[1].(nValue := tx.vout[1].nValue - payment)];
    } else {
      var outputs := stakerOuts - 1;
      var split := payment / outputs;
      var remainder := payment - split * outputs;
      assert split == Split(payment, outputs) && remainder == Dust(payment, outputs);
      hide Split, Dust, Total;
      TakeEach(tx, split, outputs);
      TotalUpdate(tx.vout, outputs, tx.vout[outputs].nValue - remainder);
      tx.vout := tx.vout[outputs := tx.vout[outputs].(nValue := tx.vout[outputs].nValue - remainder)];
    }
  }

  method TakeEach(tx: MutableTransaction, split: int, outputs: nat)
    requires 1 <= outputs < |tx.vout|
    modifies tx
    ensures |tx.vout| == old(|tx.vout|) && Total(tx.vout) == old(Total(tx.vout)) - split * outputs
    ensures forall k | 0 <= k < |tx.vout| ::
      tx.vout[k] == if 1 <= k <= outputs then old(tx.vout[k]).(nValue := old(tx.vout[k]).nValue - split) else old(tx.vout[k])
  {
    ghost var before := tx.vout;
    var j := 1;
    while j <= outputs
      invariant 1 <= j <= outputs + 1 && |tx.vout| == |before| && Total(tx.vout) == Total(before) - split * (j - 1)
      invariant forall k | 0 <= k < |before| ::
        tx.vout[k] == if 1 <= k < j then before[k].(nValue := before[k].nValue - split) else before[k]
    {
      TotalUpdate(tx.vout, j, tx.vout[j].nValue - split);
      tx.vout := tx.vout[j := tx.vout[j].(nValue := tx.vout[j].nValue - split)];
      assert split * j == split * (j - 1) + split;
      j := j + 1;
    }
  }

  /** The outputs after those that were there. */
  function Added(before: seq<TxOut>, after: seq<TxOut>): seq<TxOut> {
    if |before| <= |after| then after[|before|..] else []
  }

  /** The winner of the votes; without one, the current gamemaster. */
  ghost predicate MayBePaid(s: Situation, tally: seq<Payee>, script: Script) {
    || IsWinner(tally, script)
    || ((forall i | 0 <= i < |tally| :: tally[i].nVotes < 0) && s.currentGamemaster == Some(script))
  }

  lemma {:induction false} RightPayees(s: Situation, tally: seq<Payee>, r: Option<seq<TxOut>>)
    requires RightOuts(s, tally, r)
    ensures r.Some? && s.legacyObsolete ==> s.dgmPayee.Some? && PaysBoth(r.value, s.dgmPayee.value, s.payment)
    ensures r.Some? && !s.legacyObsolete ==>
      exists script :: r.value == [TxOut(s.payment, script)] && MayBePaid(s, tally, script)
  {
    hide PaysBoth, Shares, IsWinner;
    if s.legacyObsolete {
      if s.dgmPayee.Some? { SharesPaid(s.dgmPayee.value, s.payment); }
    } else if r.Some? {
      assert r.value == [TxOut(s.payment, r.value[0].scriptPubKey)];
    }
  }

  /** There is a gamemaster to pay. */
  ghost predicate SomebodyIsPaid(s: Situation, tally: seq<Payee>) {
    if s.legacyObsolete then s.dgmPayee.Some?
    else s.currentGamemaster.Some? || exists i | 0 <= i < |tally| :: tally[i].nVotes >= 0
  }

  lemma {:induction false} WhoIsPaid(s: Situation, tally: seq<Payee>, r: Option<seq<TxOut>>)
    requires RightOuts(s, tally, r)
    ensures r.Some? <==> SomebodyIsPaid(s, tally)
  {
  }

  lemma {:induction false} TotalNone()
    ensures Total([]) == 0
  {
  }

  /** Outputs at the end are there. */
  lemma {:induction false} Suffix(vout: seq<TxOut>, before: seq<TxOut>, outs: seq<TxOut>)
    requires |vout| == |before| + |outs| && vout[|before|..] == outs
    ensures forall o | o in outs :: o in vout
  {
    forall i | 0 <= i < |outs| ensures outs[i] in vout {
      assert vout[|before|..][i] == vout[|before| + i];
    }
  }

  class GamemasterPayments {
    var mapGamemasterBlocks: map<int, BlockPayees>

    /** The votes for a height. */
    function Tally(nHeight: int): seq<Payee>
      reads this, mapGamemasterBlocks.Values
    {
      if nHeight in mapGamemasterBlocks then mapGamemasterBlocks[nHeight].vecPayments else []
    }

    method GetBlockPayee(nHeight: int) returns (r: Option<Script>)
      ensures match r
        case Some(script) => IsWinner(Tally(nHeight), script)
        case None => forall i | 0 <= i < |Tally(nHeight)| :: Tally(nHeight)[i].nVotes < 0
    {
      if nHeight in mapGamemasterBlocks {
        r := mapGamemasterBlocks[nHeight].GetPayee();
      } else {
        r := None;
      }
    }

    /** GetGamemasterTxOuts, with payments enabled. */
    method GetGamemasterTxOuts(nHeight: int, s: Situation) returns (r: Option<seq<TxOut>>)
      ensures RightOuts(s, Tally(nHeight), r)
    {
      if s.legacyObsolete {
        if s.dgmPayee.None? { return None; }
        var d := s.dgmPayee.value;
        var reward := s.payment;
        var operatorReward := 0;
        if d.nOperatorReward != 0 && d.scriptOperatorPayout != [] {
          operatorReward := reward * d.nOperatorReward / 10000;
          reward := reward - operatorReward;
        }
        var outs := [];
        if reward > 0 { outs := outs + [TxOut(reward, d.scriptPayout)]; }
        if operatorReward > 0 { outs := outs + [TxOut(operatorReward, d.scriptOperatorPayout)]; }
        assert outs == Shares(d, s.payment);
        return Some(outs);
      }
      var payee := GetBlockPayee(nHeight);
      if payee.None? { payee := s.currentGamemaster; }
      if payee.None? { return None; }
      return Some([TxOut(s.payment, payee.value)]);
    }

    /** FillBlockPayee, with payments enabled: the transaction that pays is accepted, and nothing is lost. */
    method FillBlockPayee(txCoinbase: MutableTransaction, txCoinstake: MutableTransaction, nHeight: int,
            s: Situation, fProofOfStake: bool)
      requires txCoinbase != txCoinstake
      requires if fProofOfStake then |txCoinstake.vout| >= 2 else |txCoinbase.vout| >= 1
      modifies txCoinbase, txCoinstake
      ensures Accepts(s, Tally(nHeight), if fProofOfStake && !s.v6 then txCoinstake.vout else txCoinbase.vout)
      ensures !SomebodyIsPaid(s, Tally(nHeight)) ==>
        txCoinbase.vout == old(txCoinbase.vout) && txCoinstake.vout == old(txCoinstake.vout)
      ensures SomebodyIsPaid(s, Tally(nHeight)) ==>
        if fProofOfStake && !s.v6 then
          txCoinbase.vout == old(txCoinbase.vout) && Total(txCoinstake.vout) == old(Total(txCoinstake.vout))
        else if fProofOfStake then
          Total(txCoinbase.vout) == Due(s) && Total(txCoinbase.vout) + Total(txCoinstake.vout) == old(Total(txCoinstake.vout))
        else
          && txCoinstake.vout == old(txCoinstake.vout)
          && Total(txCoinbase.vout) == s.blockValue + old(Total(txCoinbase.vout)) - old(txCoinbase.vout[0]).nValue
      // who pays: the stake outputs, or the first output of a mined coinbase
      ensures SomebodyIsPaid(s, Tally(nHeight)) && fProofOfStake ==>
        && old(|txCoinstake.vout|) <= |txCoinstake.vout|
        && Reduced(old(txCoinstake.vout), txCoinstake.vout, Due(s), old(|txCoinstake.vout|))
      ensures SomebodyIsPaid(s, Tally(nHeight)) && !fProofOfStake ==>
        && old(|txCoinbase.vout|) <= |txCoinbase.vout|
        && txCoinbase.vout[0] == old(txCoinbase.vout[0]).(nValue := s.blockValue - Due(s))
        && txCoinbase.vout[1..old(|txCoinbase.vout|)] == old(txCoinbase.vout[1..])
      // who is paid: the outputs that were added pay the two scripts of a deterministic gamemaster, or the one elected
      ensures SomebodyIsPaid(s, Tally(nHeight)) ==>
        var added := if fProofOfStake && !s.v6 then Added(old(txCoinstake.vout), txCoinstake.vout)
                     else if fProofOfStake then txCoinbase.vout
                     else Added(old(txCoinbase.vout), txCoinbase.vout);
        if s.legacyObsolete then PaysBoth(added, s.dgmPayee.value, s.payment)
        else exists script :: added == [TxOut(s.payment, script)] && MayBePaid(s, Tally(nHeight), script)
      // a coinstake block keeps its value unless the coinbase that is cleared had some
      ensures fProofOfStake ==>
        (Total(txCoinbase.vout) + Total(txCoinstake.vout) == old(Total(txCoinbase.vout) + Total(txCoinstake.vout))
         <==> !(SomebodyIsPaid(s, Tally(nHeight)) && s.v6) || old(Total(txCoinbase.vout)) == 0)
      // a mined block pays out the block value unless the coinbase had other outputs of value
      ensures !fProofOfStake && SomebodyIsPaid(s, Tally(nHeight)) ==>
        (Total(txCoinbase.vout) == s.blockValue <==> old(Total(txCoinbase.vout)) == old(txCoinbase.vout[0]).nValue)
    {
      hide Accepts, RightOuts, Total, Paid, PaysBoth, MayBePaid, Due, Reduced, Shares;
      var r := GetGamemasterTxOuts(nHeight, s);
      RightPayees(s, Tally(nHeight), r);
      WhoIsPaid(s, Tally(nHeight), r);
      if r.None? {
        RightOutsAccepted(s, Tally(nHeight), r, if fProofOfStake && !s.v6 then txCoinstake.vout else txCoinbase.vout);
        return;
      }
      RightOutsTotal(s, Tally(nHeight), r);
      ghost var base, stake := txCoinbase.vout, txCoinstake.vout;
      PlaceOuts(txCoinbase, txCoinstake, r.value, s, fProofOfStake);
      TotalNone();
      if fProofOfStake && !s.v6 {
        Suffix(txCoinstake.vout, stake, r.value);
        RightOutsAccepted(s, Tally(nHeight), r, txCoinstake.vout);
      } else {
        Suffix(txCoinbase.vout, if fProofOfStake then [] else base, r.value);
        RightOutsAccepted(s, Tally(nHeight), r, txCoinbase.vout);
      }
    }

    /** The outputs go into the coinstake, the cleared coinbase or the coinbase, and what they are worth is taken
        from the stake or the block value. */
    method PlaceOuts(txCoinbase: MutableTransaction, txCoinstake: MutableTransaction, outs: seq<TxOut>,
            s: Situation, fProofOfStake: bool)
      requires txCoinbase != txCoinstake && Total(outs) >= 0
      requires if fProofOfStake then |txCoinstake.vout| >= 2 else |txCoinbase.vout| >= 1
      modifies txCoinbase, txCoinstake
      ensures fProofOfStake ==>
        && old(|txCoinstake.vout|) <= |txCoinstake.vout|
        && Reduced(old(txCoinstake.vout), txCoinstake.vout, Total(outs), old(|txCoinstake.vout|))
        && txCoinstake.vout[old(|txCoinstake.vout|)..] == (if s.v6 then [] else outs)
        && txCoinbase.vout == (if s.v6 then outs else old(txCoinbase.vout))
        && Total(txCoinstake.vout) == old(Total(txCoinstake.vout)) - (if s.v6 then Total(outs) else 0)
      ensures !fProofOfStake ==>
        && old(|txCoinbase.vout|) <= |txCoinbase.vout| && txCoinstake.vout == old(txCoinstake.vout)
        && txCoinbase.vout[0] == old(txCoinbase.vout[0]).(nValue := s.blockValue - Total(outs))
        && txCoinbase.vout[1..old(|txCoinbase.vout|)] == old(txCoinbase.vout[1..])
        && txCoinbase.vout[old(|txCoinbase.vout|)..] == outs
        && Total(txCoinbase.vout) == s.blockValue + old(Total(txCoinbase.vout)) - old(txCoinbase.vout[0]).nValue
    {
      hide Total, Reduced;
      var fPayCoinstake := fProofOfStake && !s.v6;
      if fProofOfStake && !fPayCoinstake { txCoinbase.vout := []; }
      var initial := |txCoinstake.vout|;
      ghost var stake := txCoinstake.vout;
      var payment := AddOuts(if fPayCoinstake then txCoinstake else txCoinbase, outs);
      if fProofOfStake {
        assert stake + [] == stake;
        SubtractFromCoinstake(txCoinstake, payment, initial);
        ReducedStart(stake, if fPayCoinstake then outs else [], txCoinstake.vout, payment);
      } else {
        TotalUpdate(txCoinbase.vout, 0, s.blockValue - payment);
        txCoinbase.vout := txCoinbase.vout[0 := txCoinbase.vout[0].(nValue := s.blockValue - payment)];
      }
    }

    /** A coinbase worth 5 is lost when a coinstake block is paid from the coinbase. */
    method ClearedCoinbase(txCoinbase: MutableTransaction, txCoinstake: MutableTransaction, nHeight: int)
      requires txCoinbase != txCoinstake
      requires txCoinbase.vout == [TxOut(5, [])] && txCoinstake.vout == [TxOut(0, []), TxOut(100, [1])]
      modifies txCoinbase, txCoinstake
      ensures Total(txCoinbase.vout) + Total(txCoinstake.vout) == old(Total(txCoinbase.vout) + Total(txCoinstake.vout)) - 5
    {
      TotalOne(TxOut(5, []));
      FillBlockPayee(txCoinbase, txCoinstake, nHeight,
              Situation(true, Some(Deterministic(0, [2], [])), 10, None, true, 50), true);
    }

    /** A second coinbase output worth 5 is paid out beyond the block value. */
    method OtherCoinbaseOutput(txCoinbase: MutableTransaction, txCoinstake: MutableTransaction, nHeight: int)
      requires txCoinbase != txCoinstake && txCoinbase.vout == [TxOut(50, [1]), TxOut(5, [3])]
      modifies txCoinbase, txCoinstake
      ensures Total(txCoinbase.vout) == 50 + 5
    {
      TotalOne(TxOut(50, [1]));
      assert txCoinbase.vout[..1] == [TxOut(50, [1])];
      FillBlockPayee(txCoinbase, txCoinstake, nHeight,
              Situation(true, Some(Deterministic(0, [2], [])), 10, None, true, 50), false);
    }

    /** The loop that adds the outputs. */
    method AddOuts(tx: MutableTransaction, outs: seq<TxOut>) returns (payment: int)
      modifies tx
      ensures tx.vout == old(tx.vout) + outs && payment == Total(outs) && Total(tx.vout) == old(Total(tx.vout)) + payment
    {
      payment := 0;
      TotalNone();
      assert outs[..0] == [];
      var i := 0;
      while i < |outs|
        invariant 0 <= i <= |outs| && tx.vout == old(tx.vout) + outs[..i] && payment == Total(outs[..i])
      {
        assert outs[..i + 1][..i] == outs[..i];
        tx.vout := tx.vout + [outs[i]];
        payment := payment + outs[i].nValue;
        i := i + 1;
      }
      assert outs[..i] == outs;
      TotalAppend(old(tx.vout), outs);
    }

    /** IsTransactionValid: whether a block's payment is accepted. */
    method IsTransactionValid(vout: seq<TxOut>, nHeight: int, s: Situation) returns (ok: bool)
      ensures ok <==> Accepts(s, Tally(nHeight), vout)
    {
      if s.legacyObsolete {
        var r := GetGamemasterTxOuts(nHeight, s);
        if r.None? { return true; }
        var i := 0;
        while i < |r.value|
          invariant 0 <= i <= |r.value| && forall j | 0 <= j < i :: r.value[j] in vout
        {
          if r.value[i] !in vout { return false; }
          i := i + 1;
        }
        return true;
      }
      if nHeight in mapGamemasterBlocks {
        ok := mapGamemasterBlocks[nHeight].IsTransactionValid(vout, s.payment);
      } else {
        ok := true;
      }
    }
  }
}
