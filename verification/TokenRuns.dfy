/** Runs of actions on a rebasing token: the events each action is expected to emit, and how far the
    balances replayed from them can drift from what the shares are worth. */
module TokenRuns {
  import opened WadRayMath
  import opened Shares
  import opened Ledger

  /** An account's shares and the index at its last touch. */
  datatype Holding = Holding(scaled: int, lastIndex: int)

  type Holdings = map<Address, Holding>

  function HoldingOf(h: Holdings, a: Address): Holding {
    if a in h then h[a] else Holding(0, 0)
  }

  function WorthAtLastTouch(h: Holdings, a: Address): int {
    RayMul(HoldingOf(h, a).scaled, HoldingOf(h, a).lastIndex)
  }

  /** `index` is the token's index after the action. A plain transfer is a `TransferFrom` whose caller is
      its origin. Borrowing and repaying act on a debt token as supplying and withdrawing do on an aToken. */
  datatype Action =
    | Supply(caller: Address, onBehalfOf: Address, amount: int, index: int)
    | Withdraw(user: Address, to: Address, amount: int, index: int)
    | TransferFrom(caller: Address, origin: Address, to: Address, amount: int, index: int)
    | VariableBorrow(caller: Address, onBehalfOf: Address, amount: int, index: int)
    | RepayVariable(caller: Address, onBehalfOf: Address, amount: int, index: int)

  /** The contracts a receipt can mention: the token acted on, the aToken that holds the reserve's liquidity
      (for supplying, withdrawing and transferring the same one), and the underlying asset. */
  datatype Contracts = Contracts(token: Address, aToken: Address, underlying: Address)

  function Touch(h: Holdings, a: Address, delta: int, index: int): Holdings {
    h[a := Holding(HoldingOf(h, a).scaled + delta, index)]
  }

  function After(h: Holdings, action: Action): Holdings
    requires action.index != 0
  {
    var shares := RayDiv(action.amount, action.index);
    match action
    case Supply(_, onBehalfOf, _, index) => Touch(h, onBehalfOf, shares, index)
    case Withdraw(user, _, _, index) => Touch(h, user, -shares, index)
    case TransferFrom(_, origin, to, _, index) => Touch(Touch(h, origin, -shares, index), to, shares, index)
    case VariableBorrow(_, onBehalfOf, _, index) => Touch(h, onBehalfOf, shares, index)
    case RepayVariable(_, onBehalfOf, _, index) => Touch(h, onBehalfOf, -shares, index)
  }

  predicate MayTouch(h: Holdings, a: Address, shares: int, index: int) {
    && a != ZERO_ADDRESS
    && shares <= HoldingOf(h, a).scaled
    && HoldingOf(h, a).lastIndex <= index
  }

  /** Amounts are not negative, an index never falls between two touches of an account, nobody parts with
      more shares than they have, and the zero address holds nothing. */
  predicate Enabled(h: Holdings, action: Action) {
    && 0 <= action.amount && RAY <= action.index
    && var shares := RayDiv(action.amount, action.index);
       match action
       case Supply(_, onBehalfOf, _, index) => MayTouch(h, onBehalfOf, 0, index)
       case Withdraw(user, _, _, index) => MayTouch(h, user, shares, index)
       case TransferFrom(_, origin, to, _, index) => MayTouch(h, origin, shares, index) && MayTouch(h, to, 0, index)
       case VariableBorrow(_, onBehalfOf, _, index) => MayTouch(h, onBehalfOf, 0, index)
       case RepayVariable(_, onBehalfOf, _, index) => MayTouch(h, onBehalfOf, shares, index)
  }

  predicate Valid(h: Holdings) {
    forall a | a in h :: 0 <= h[a].scaled && 0 <= h[a].lastIndex
  }

  // ----- expected events -----

  function GetBalanceIncrease(scaledBalance: int, indexBefore: int, indexAfter: int): int {
    RayMul(scaledBalance, indexAfter) - RayMul(scaledBalance, indexBefore)
  }

  /** The growth of an account since its last touch. The scaled balance before the action is worked out
      from the one after it, given what the action took away. */
  function Increase(before: Holdings, after: Holdings, a: Address, taken: int, index: int): int {
    GetBalanceIncrease(HoldingOf(after, a).scaled + taken, HoldingOf(before, a).lastIndex, index)
  }

  function MintLogs(token: Address, caller: Address, onBehalfOf: Address, value: int, increase: int, index: int): seq<Log> {
    [Log(token, Transfer(ZERO_ADDRESS, onBehalfOf, value)),
     Log(token, Mint(caller, onBehalfOf, value, increase, index))]
  }

  /** Taking out less than has accrued shows as a mint of the difference, taking out more as a burn. */
  function BurnLogs(token: Address, user: Address, target: Address, amount: int, increase: int, index: int): seq<Log> {
    if increase > amount then
      MintLogs(token, user, user, increase - amount, increase, index)
    else
      [Log(token, Transfer(user, ZERO_ADDRESS, amount - increase)),
       Log(token, Burn(user, target, amount - increase, increase, index))]
  }

  function Emitted(c: Contracts, h: Holdings, action: Action): seq<Log>
    requires action.index != 0
  {
    var h' := After(h, action);
    var shares := RayDiv(action.amount, action.index);
    match action
    case Supply(caller, onBehalfOf, amount, index) =>
      var increase := Increase(h, h', onBehalfOf, -shares, index);
      [Log(c.underlying, Transfer(caller, c.aToken, amount))]
      + MintLogs(c.token, caller, onBehalfOf, amount + increase, increase, index)
    case Withdraw(user, to, amount, index) =>
      var increase := Increase(h, h', user, shares, index);
      [Log(c.underlying, Transfer(c.aToken, to, amount))] + BurnLogs(c.token, user, to, amount, increase, index)
    case TransferFrom(caller, origin, to, amount, index) =>
      var delta := if origin == to then 0 else shares;
      var fromIncrease := Increase(h, h', origin, delta, index);
      var toIncrease := Increase(h, h', to, -delta, index);
      [Log(c.token, Transfer(origin, to, amount)), Log(c.token, BalanceTransfer(origin, to, shares, index))]
      + (if fromIncrease > 0 then MintLogs(c.token, caller, origin, fromIncrease, fromIncrease, index) else [])
      + (if origin != to && toIncrease > 0 then MintLogs(c.token, caller, to, toIncrease, toIncrease, index) else [])
    case VariableBorrow(caller, onBehalfOf, amount, index) =>
      var increase := Increase(h, h', onBehalfOf, -shares, index);
      [Log(c.underlying, Transfer(c.aToken, caller, amount))]
      + MintLogs(c.token, caller, onBehalfOf, amount + increase, increase, index)
    case RepayVariable(caller, onBehalfOf, amount, index) =>
      var increase := Increase(h, h', onBehalfOf, shares, index);
      [Log(c.underlying, Transfer(caller, c.aToken, amount))]
      + BurnLogs(c.token, onBehalfOf, ZERO_ADDRESS, amount, increase, index)
  }

  // ----- what the events say about one account -----

  lemma {:induction false} NetEffectConcat(x: seq<Log>, y: seq<Log>, token: Address, a: Address)
    ensures NetEffect(x + y, token, a) == NetEffect(x, token, a) + NetEffect(y, token, a)
  {
    if y == [] {
      assert x + y == x;
    } else {
      var front := y[..|y| - 1];
      NetEffectConcat(x, front, token, a);
      assert (x + y)[..|x + y| - 1] == x + front;
    }
  }

  lemma NetEffectOne(log: Log, token: Address, a: Address)
    ensures NetEffect([log], token, a) == if log.emitter == token then Effect(log.event, a) else 0
  {
    assert [log][..0] == [];
  }

  lemma NetEffectTwo(x: Log, y: Log, token: Address, a: Address)
    ensures NetEffect([x, y], token, a) == NetEffect([x], token, a) + NetEffect([y], token, a)
  {
    NetEffectConcat([x], [y], token, a);
    assert [x] + [y] == [x, y];
  }

  lemma MintEffect(token: Address, caller: Address, onBehalfOf: Address, value: int, increase: int, index: int, a: Address)
    ensures NetEffect(MintLogs(token, caller, onBehalfOf, value, increase, index), token, a)
         == if a == onBehalfOf then value else 0
  {
    var (x, y) := (Log(token, Transfer(ZERO_ADDRESS, onBehalfOf, value)),
      Log(token, Mint(caller, onBehalfOf, value, increase, index)));
    NetEffectTwo(x, y, token, a);
    NetEffectOne(x, token, a);
    NetEffectOne(y, token, a);
  }

  /** Both shapes of a withdrawal, the mint and the burn, say the same: the balance grew by what had
      accrued and fell by the amount. */
  lemma BurnEffect(token: Address, user: Address, target: Address, amount: int, increase: int, index: int, a: Address)
    ensures NetEffect(BurnLogs(token, user, target, amount, increase, index), token, a)
         == if a == user then increase - amount else 0
  {
    if increase > amount {
      MintEffect(token, user, user, increase - amount, increase, index, a);
    } else {
      var (x, y) := (Log(token, Transfer(user, ZERO_ADDRESS, amount - increase)),
        Log(token, Burn(user, target, amount - increase, increase, index)));
      NetEffectTwo(x, y, token, a);
      NetEffectOne(x, token, a);
      NetEffectOne(y, token, a);
    }
  }

  /** Growth of an account's shares from its last touch to the action's index. */
  function Growth(h: Holdings, a: Address, index: int): int {
    GetBalanceIncrease(HoldingOf(h, a).scaled, HoldingOf(h, a).lastIndex, index)
  }

  /** What an action credits to an account beyond its growth. */
  function Credit(action: Action, a: Address): int {
    match action
    case Supply(_, onBehalfOf, amount, _) => if a == onBehalfOf then amount else 0
    case Withdraw(user, _, amount, _) => if a == user then -amount else 0
    case TransferFrom(_, origin, to, amount, _) => (if a == to then amount else 0) - (if a == origin then amount else 0)
    case VariableBorrow(_, onBehalfOf, amount, _) => if a == onBehalfOf then amount else 0
    case RepayVariable(_, onBehalfOf, amount, _) => if a == onBehalfOf then -amount else 0
  }

  predicate Touches(action: Action, a: Address) {
    match action
    case Supply(_, onBehalfOf, _, _) => a == onBehalfOf
    case Withdraw(user, _, _, _) => a == user
    case TransferFrom(_, origin, to, _, _) => a == origin || a == to
    case VariableBorrow(_, onBehalfOf, _, _) => a == onBehalfOf
    case RepayVariable(_, onBehalfOf, _, _) => a == onBehalfOf
  }

  lemma GrowthNonneg(h: Holdings, a: Address, index: int)
    requires Valid(h) && HoldingOf(h, a).lastIndex <= index
    ensures 0 <= Growth(h, a, index)
  {
    var s := HoldingOf(h, a).scaled;
    RayMulMono(s, s, HoldingOf(h, a).lastIndex, index);
  }

  /** The events of an action tell an account exactly its growth and its credit, and nothing to
      anyone the action does not touch. */
  lemma EventsTellGrowthAndCredit(c: Contracts, h: Holdings, action: Action, a: Address)
    requires Valid(h) && Enabled(h, action) && c.token != c.underlying
    ensures NetEffect(Emitted(c, h, action), c.token, a)
         == if Touches(action, a) then Growth(h, a, action.index) + Credit(action, a) else 0
  {
    match action
    case Supply(_, _, _, _) => MintingTells(c, h, action, a);
    case Withdraw(_, _, _, _) => BurningTells(c, h, action, a);
    case VariableBorrow(_, _, _, _) => MintingTells(c, h, action, a);
    case RepayVariable(_, _, _, _) => BurningTells(c, h, action, a);
    case TransferFrom(caller, origin, to, amount, index) =>
      TransferTells(c, h, caller, origin, to, amount, index, a);
  }

  lemma MintingTells(c: Contracts, h: Holdings, action: Action, a: Address)
    requires Enabled(h, action) && c.token != c.underlying && (action.Supply? || action.VariableBorrow?)
    ensures NetEffect(Emitted(c, h, action), c.token, a)
         == if Touches(action, a) then Growth(h, a, action.index) + Credit(action, a) else 0
  {
    hide RayMul, RayDiv, NetEffect, MintLogs;
    var (caller, account, amount, index) := (action.caller, action.onBehalfOf, action.amount, action.index);
    var increase := Growth(h, account, index);
    var (from, to) := if action.Supply? then (caller, c.aToken) else (c.aToken, caller);
    OneAccount(c, Log(c.underlying, Transfer(from, to, amount)),
      MintLogs(c.token, caller, account, amount + increase, increase, index), a);
    MintEffect(c.token, caller, account, amount + increase, increase, index, a);
  }

  lemma BurningTells(c: Contracts, h: Holdings, action: Action, a: Address)
    requires Enabled(h, action) && c.token != c.underlying && (action.Withdraw? || action.RepayVariable?)
    ensures NetEffect(Emitted(c, h, action), c.token, a)
         == if Touches(action, a) then Growth(h, a, action.index) + Credit(action, a) else 0
  {
    hide RayMul, RayDiv, NetEffect, BurnLogs;
    var (amount, index) := (action.amount, action.index);
    match action
    case Withdraw(user, to, _, _) =>
      OneAccount(c, Log(c.underlying, Transfer(c.aToken, to, amount)),
        BurnLogs(c.token, user, to, amount, Growth(h, user, index), index), a);
      BurnEffect(c.token, user, to, amount, Growth(h, user, index), index, a);
    case RepayVariable(caller, account, _, _) =>
      OneAccount(c, Log(c.underlying, Transfer(caller, c.aToken, amount)),
        BurnLogs(c.token, account, ZERO_ADDRESS, amount, Growth(h, account, index), index), a);
      BurnEffect(c.token, account, ZERO_ADDRESS, amount, Growth(h, account, index), index, a);
  }

  lemma OneAccount(c: Contracts, other: Log, own: seq<Log>, a: Address)
    requires other.emitter != c.token
    ensures NetEffect([other] + own, c.token, a) == NetEffect(own, c.token, a)
  {
    NetEffectConcat([other], own, c.token, a);
    NetEffectOne(other, c.token, a);
  }

  lemma TransferTells(c: Contracts, h: Holdings, caller: Address, origin: Address, to: Address, amount: int, index: int,
    a: Address)
    requires Valid(h) && Enabled(h, TransferFrom(caller, origin, to, amount, index))
    ensures var action := TransferFrom(caller, origin, to, amount, index);
      NetEffect(Emitted(c, h, action), c.token, a)
      == if Touches(action, a) then Growth(h, a, index) + Credit(action, a) else 0
  {
    hide RayMul, RayDiv;
    var shares := RayDiv(amount, index);
    var (fromGrowth, toGrowth) := (Growth(h, origin, index), Growth(h, to, index));
    GrowthNonneg(h, origin, index);
    GrowthNonneg(h, to, index);
    var fromLogs := if fromGrowth > 0 then MintLogs(c.token, caller, origin, fromGrowth, fromGrowth, index) else [];
    var toLogs :=
      if origin != to && toGrowth > 0 then MintLogs(c.token, caller, to, toGrowth, toGrowth, index) else [];
    TransferLogs(c, h, caller, origin, to, amount, index, fromLogs, toLogs);
    hide Emitted, MintLogs, Growth, Enabled, Valid, NetEffect;
    MovedEffect(c.token, origin, to, amount, shares, index, fromLogs, toLogs, a);
    MintEffect(c.token, caller, origin, fromGrowth, fromGrowth, index, a);
    MintEffect(c.token, caller, to, toGrowth, toGrowth, index, a);
    NetEffectNone(c.token, a);
  }

  lemma NetEffectNone(token: Address, a: Address)
    ensures NetEffect([], token, a) == 0
  {
  }

  lemma MovedEffect(token: Address, origin: Address, to: Address, amount: int, shares: int, index: int,
    fromLogs: seq<Log>, toLogs: seq<Log>, a: Address)
    requires origin != ZERO_ADDRESS && to != ZERO_ADDRESS
    ensures NetEffect([Log(token, Transfer(origin, to, amount)), Log(token, BalanceTransfer(origin, to, shares, index))]
                      + fromLogs + toLogs, token, a)
         == (if a == to then amount else 0) - (if a == origin then amount else 0)
            + NetEffect(fromLogs, token, a) + NetEffect(toLogs, token, a)
  {
    var (x, y) := (Log(token, Transfer(origin, to, amount)), Log(token, BalanceTransfer(origin, to, shares, index)));
    NetEffectConcat([x, y] + fromLogs, toLogs, token, a);
    NetEffectConcat([x, y], fromLogs, token, a);
    NetEffectTwo(x, y, token, a);
    NetEffectOne(x, token, a);
    NetEffectOne(y, token, a);
  }

  lemma TransferLogs(c: Contracts, h: Holdings, caller: Address, origin: Address, to: Address, amount: int, index: int,
    fromLogs: seq<Log>, toLogs: seq<Log>)
    requires index != 0
    requires var g := Growth(h, origin, index);
      fromLogs == if g > 0 then MintLogs(c.token, caller, origin, g, g, index) else []
    requires var g := Growth(h, to, index);
      toLogs == if origin != to && g > 0 then MintLogs(c.token, caller, to, g, g, index) else []
    ensures Emitted(c, h, TransferFrom(caller, origin, to, amount, index))
         == [Log(c.token, Transfer(origin, to, amount)),
             Log(c.token, BalanceTransfer(origin, to, RayDiv(amount, index), index))] + fromLogs + toLogs
  {
    hide RayMul, RayDiv, MintLogs;
  }

  /** The amounts an event states. */
  function Amounts(e: Event): seq<int> {
    match e
    case Transfer(_, _, value) => [value]
    case Mint(_, _, value, balanceIncrease, _) => [value, balanceIncrease]
    case Burn(_, _, value, balanceIncrease, _) => [value, balanceIncrease]
    case BalanceTransfer(_, _, value, _) => [value]
  }

  /** No emitted event ever states a negative amount: which of its two shapes a withdrawal takes is decided
      by the sign of what is left after the growth. */
  lemma EmittedNonneg(c: Contracts, h: Holdings, action: Action, log: Log, x: int)
    requires Valid(h) && Enabled(h, action) && log in Emitted(c, h, action) && x in Amounts(log.event)
    ensures 0 <= x
  {
    DivAtNearest(action.amount, action.index, RAY);
    hide RayMul, DivAt;
    match action
    case Supply(_, _, _, _) => MintingNonneg(c, h, action, log, x);
    case Withdraw(user, _, _, index) => GrowthNonneg(h, user, index);
    case VariableBorrow(_, _, _, _) => MintingNonneg(c, h, action, log, x);
    case RepayVariable(_, onBehalfOf, _, index) => GrowthNonneg(h, onBehalfOf, index);
    case TransferFrom(_, _, _, _, _) => TransferNonneg(c, h, action, log, x);
  }

  lemma MintingNonneg(c: Contracts, h: Holdings, action: Action, log: Log, x: int)
    requires Valid(h) && Enabled(h, action) && (action.Supply? || action.VariableBorrow?)
    requires log in Emitted(c, h, action) && x in Amounts(log.event)
    ensures 0 <= x
  {
    hide RayMul, RayDiv;
    GrowthNonneg(h, action.onBehalfOf, action.index);
  }

  lemma TransferNonneg(c: Contracts, h: Holdings, action: Action, log: Log, x: int)
    requires Valid(h) && Enabled(h, action) && action.TransferFrom? && 0 <= RayDiv(action.amount, action.index)
    requires log in Emitted(c, h, action) && x in Amounts(log.event)
    ensures 0 <= x
  {
    hide RayMul, RayDiv;
    GrowthNonneg(h, action.origin, action.index);
    GrowthNonneg(h, action.to, action.index);
  }

  // ----- drift -----

  lemma AfterValid(h: Holdings, action: Action)
    requires Valid(h) && Enabled(h, action)
    ensures Valid(After(h, action))
  {
    DivAtNearest(action.amount, action.index, RAY);
    hide RayMul, DivAt;
  }

  /** Shares moved into (positive) or out of an account. */
  function SharesMoved(action: Action, a: Address): int
    requires action.index != 0
  {
    var shares := RayDiv(action.amount, action.index);
    match action
    case Supply(_, onBehalfOf, _, _) => if a == onBehalfOf then shares else 0
    case Withdraw(user, _, _, _) => if a == user then -shares else 0
    case TransferFrom(_, origin, to, _, _) => (if a == to then shares else 0) - (if a == origin then shares else 0)
    case VariableBorrow(_, onBehalfOf, _, _) => if a == onBehalfOf then shares else 0
    case RepayVariable(_, onBehalfOf, _, _) => if a == onBehalfOf then -shares else 0
  }

  lemma AfterHolding(h: Holdings, action: Action, a: Address)
    requires action.index != 0
    ensures HoldingOf(After(h, action), a)
         == if Touches(action, a) then Holding(HoldingOf(h, a).scaled + SharesMoved(action, a), action.index)
            else HoldingOf(h, a)
  {
    hide RayDiv;
  }

  predicate SelfTransfer(action: Action, a: Address) {
    action.TransferFrom? && action.origin == a && action.to == a
  }

  /** One action moves the gap between the events' story and the shares' worth by less than one unit and
      half a share, for the accounts it touches; a transfer to oneself moves it not at all. */
  lemma ActionDrift(c: Contracts, h: Holdings, action: Action, a: Address)
    requires Valid(h) && Enabled(h, action) && c.token != c.underlying
    ensures var told := NetEffect(Emitted(c, h, action), c.token, a);
      var moved := WorthAtLastTouch(After(h, action), a) - WorthAtLastTouch(h, a);
      if Touches(action, a) && !SelfTransfer(action, a) then
        2 * (RAY * Abs(told - moved)) < 2 * RAY + action.index
      else
        told == moved
  {
    hide RayMul, RayDiv, Emitted, NetEffect, After, Valid;
    EventsTellGrowthAndCredit(c, h, action, a);
    AfterHolding(h, action, a);
    if Touches(action, a) && !SelfTransfer(action, a) {
      HoldingNonneg(h, a);
      TouchDrift(HoldingOf(h, a).scaled, SharesMoved(action, a), Credit(action, a), action.amount, action.index);
    }
  }

  lemma HoldingNonneg(h: Holdings, a: Address)
    requires Valid(h)
    ensures 0 <= HoldingOf(h, a).scaled && 0 <= HoldingOf(h, a).lastIndex
  {
  }

  lemma TouchDrift(s: nat, moved: int, credit: int, amount: int, index: nat)
    requires amount >= 0 && index > 0
    requires var shares := RayDiv(amount, index);
      (moved == shares && credit == amount) || (moved == -shares && credit == -amount && shares <= s)
    ensures 2 * (RAY * Abs(RayMul(s, index) + credit - RayMul(s + moved, index))) < 2 * RAY + index
  {
    if moved == RayDiv(amount, index) && credit == amount {
      AddError(s, amount, index);
    } else {
      SubError(s, amount, index);
    }
    hide RayMul, RayDiv;
  }

  // ----- runs -----

  predicate Allowed(h: Holdings, run: seq<Action>)
    decreases |run|
  {
    run != [] ==> Enabled(h, run[0]) && Allowed(After(h, run[0]), run[1..])
  }

  function Final(h: Holdings, run: seq<Action>): Holdings
    requires Allowed(h, run)
    decreases |run|
  {
    if run == [] then h else Final(After(h, run[0]), run[1..])
  }

  /** The table after replaying one receipt per action. */
  function Rebuilt(c: Contracts, h: Holdings, b: Table, run: seq<Action>): Table
    requires Allowed(h, run)
    decreases |run|
  {
    if run == [] then b
    else Rebuilt(c, After(h, run[0]), Replay(b, Emitted(c, h, run[0]), c.token), run[1..])
  }

  function TouchCount(run: seq<Action>, a: Address): nat {
    if run == [] then 0
    else (if Touches(run[0], a) && !SelfTransfer(run[0], a) then 1 else 0) + TouchCount(run[1..], a)
  }

  /** How far an entry of the table is from the worth of the shares it stands for. */
  ghost function Gap(b: Table, h: Holdings, a: Address): int
    requires Tracked(b, a)
  {
    b[a].value - WorthAtLastTouch(h, a)
  }

  /** `drift` is at most `n` times (1 + maxIndex / (2 * RAY)), and less than that once `n` is positive. */
  ghost predicate Within(drift: int, n: nat, maxIndex: int) {
    && 2 * (RAY * Abs(drift)) <= n * (2 * RAY + maxIndex)
    && (n > 0 ==> 2 * (RAY * Abs(drift)) < n * (2 * RAY + maxIndex))
  }

  /** Rebuilding balances from events refines them over every run: after `n` touches of an account, not
      counting transfers to itself, the rebuilt balance has moved away from the worth of its shares by less
      than n * (1 + maxIndex / (2 * RAY)), and not at all when there was no touch. */
  lemma {:induction false} ReplayTracksBalances(c: Contracts, h: Holdings, b: Table, run: seq<Action>, a: Address,
    maxIndex: int)
    requires Valid(h) && Allowed(h, run) && c.token != c.underlying && Tracked(b, a)
    requires forall i | 0 <= i < |run| :: run[i].index <= maxIndex
    ensures Tracked(Rebuilt(c, h, b, run), a)
    ensures Within(Gap(Rebuilt(c, h, b, run), Final(h, run), a) - Gap(b, h, a), TouchCount(run, a), maxIndex)
    decreases |run|
  {
    hide RayMul, RayDiv, Emitted, NetEffect, After, Replay, Gap, Within, Valid, Enabled, Touches, SelfTransfer;
    if run == [] {
      NoDrift(maxIndex);
    } else {
      var (action, rest) := (run[0], run[1..]);
      IndexPositive(h, action);
      var (h', b') := (After(h, action), Replay(b, Emitted(c, h, action), c.token));
      AfterValid(h, action);
      StepDrift(c, h, b, action, a, maxIndex);
      ReplayTracksBalances(c, h', b', rest, a, maxIndex);
      AddDrift(Gap(b', h', a) - Gap(b, h, a), Gap(Rebuilt(c, h', b', rest), Final(h', rest), a) - Gap(b', h', a),
        if Touches(action, a) && !SelfTransfer(action, a) then 1 else 0, TouchCount(rest, a), maxIndex);
    }
  }

  lemma IndexPositive(h: Holdings, action: Action)
    requires Enabled(h, action)
    ensures 0 < action.index
  {
  }

  lemma NoDrift(maxIndex: int)
    ensures Within(0, 0, maxIndex)
  {
  }

  lemma StepDrift(c: Contracts, h: Holdings, b: Table, action: Action, a: Address, maxIndex: int)
    requires Valid(h) && Enabled(h, action) && c.token != c.underlying && Tracked(b, a) && action.index <= maxIndex
    ensures var b' := Replay(b, Emitted(c, h, action), c.token);
      && Tracked(b', a)
      && Within(Gap(b', After(h, action), a) - Gap(b, h, a),
           if Touches(action, a) && !SelfTransfer(action, a) then 1 else 0, maxIndex)
  {
    hide *;
    IndexPositive(h, action);
    ReplayIsNetEffect(b, Emitted(c, h, action), c.token, a);
    ActionDrift(c, h, action, a);
    GapIs(b, h, a);
    GapIs(Replay(b, Emitted(c, h, action), c.token), After(h, action), a);
    var drift := NetEffect(Emitted(c, h, action), c.token, a) - (WorthAtLastTouch(After(h, action), a) - WorthAtLastTouch(h, a));
    if Touches(action, a) && !SelfTransfer(action, a) {
      WithinOne(drift, action.index, maxIndex);
    } else {
      NoDrift(maxIndex);
    }
  }

  lemma GapIs(b: Table, h: Holdings, a: Address)
    requires Tracked(b, a)
    ensures a in b && b[a].Balance? && Gap(b, h, a) == b[a].value - WorthAtLastTouch(h, a)
  {
    hide WorthAtLastTouch;
  }

  lemma WithinOne(drift: int, index: int, maxIndex: int)
    requires 2 * (RAY * Abs(drift)) < 2 * RAY + index && index <= maxIndex
    ensures Within(drift, 1, maxIndex)
  {
  }

  lemma AddDrift(step: int, later: int, one: nat, n: nat, maxIndex: int)
    requires one <= 1 && Within(step, one, maxIndex) && Within(later, n, maxIndex)
    ensures Within(step + later, one + n, maxIndex)
  {
    AddWithin(Abs(step + later), Abs(step), Abs(later), one, n, 2 * RAY + maxIndex, RAY);
  }

  lemma AddWithin(sum: int, x: nat, y: nat, one: nat, n: nat, k: int, f: nat)
    requires sum <= x + y && one <= 1
    requires 2 * (f * x) <= one * k && (one > 0 ==> 2 * (f * x) < one * k)
    requires 2 * (f * y) <= n * k && (n > 0 ==> 2 * (f * y) < n * k)
    ensures 2 * (f * sum) <= (one + n) * k && (one + n > 0 ==> 2 * (f * sum) < (one + n) * k)
  {
    assert (one + n) * k == one * k + n * k;
    MulMono(sum, x + y, f);
    assert f * (x + y) == f * x + f * y;
  }

  /** From empty accounts: the rebuilt balance itself is that close to the worth of the shares. */
  lemma ReplayFromNothing(c: Contracts, b: Table, run: seq<Action>, a: Address, maxIndex: int)
    requires Allowed(map[], run) && c.token != c.underlying && EntryOf(b, a) == Balance(0)
    requires forall i | 0 <= i < |run| :: run[i].index <= maxIndex
    ensures Tracked(Rebuilt(c, map[], b, run), a)
    ensures Within(Rebuilt(c, map[], b, run)[a].value - WorthAtLastTouch(Final(map[], run), a), TouchCount(run, a), maxIndex)
  {
    hide RayMul, Within, Rebuilt, Final, Allowed, TouchCount;
    ReplayTracksBalances(c, map[], b, run, a, maxIndex);
    WorthOfNothing(0);
  }
}
