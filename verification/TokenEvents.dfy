/** What each token action is expected to emit, event by event, in terms of the account's growth and the parties named. */
module TokenEvents {
  import opened WadRayMath
  import opened Ledger
  import opened TokenRuns

  // ----- lists of events -----

  lemma EventsOfTwo(x: Log, y: Log, emitter: Address, signature: Signature)
    ensures EventsOf([x, y], emitter, signature) == EventsOf([x], emitter, signature) + EventsOf([y], emitter, signature)
  {
    EventsOfConcat([x], [y], emitter, signature);
    assert [x] + [y] == [x, y];
  }

  /** All a contract emitted, by kind. */
  ghost predicate Emits(logs: seq<Log>, emitter: Address, transfers: seq<Event>, mints: seq<Event>, burns: seq<Event>,
    balanceTransfers: seq<Event>)
  {
    && EventsOf(logs, emitter, TransferSig) == transfers
    && EventsOf(logs, emitter, MintSig) == mints
    && EventsOf(logs, emitter, BurnSig) == burns
    && EventsOf(logs, emitter, BalanceTransferSig) == balanceTransfers
  }

  lemma EmitsConcat(x: seq<Log>, y: seq<Log>, emitter: Address, t: seq<Event>, m: seq<Event>, b: seq<Event>, s: seq<Event>,
    t': seq<Event>, m': seq<Event>, b': seq<Event>, s': seq<Event>)
    requires Emits(x, emitter, t, m, b, s) && Emits(y, emitter, t', m', b', s')
    ensures Emits(x + y, emitter, t + t', m + m', b + b', s + s')
  {
    EventsOfConcat(x, y, emitter, TransferSig);
    EventsOfConcat(x, y, emitter, MintSig);
    EventsOfConcat(x, y, emitter, BurnSig);
    EventsOfConcat(x, y, emitter, BalanceTransferSig);
  }

  lemma EmitsOne(log: Log, emitter: Address)
    ensures log.emitter != emitter ==> Emits([log], emitter, [], [], [], [])
    ensures log.emitter == emitter && log.event.Transfer? ==> Emits([log], emitter, [log.event], [], [], [])
  {
    EventsOfOne(log, emitter, TransferSig);
    EventsOfOne(log, emitter, MintSig);
    EventsOfOne(log, emitter, BurnSig);
    EventsOfOne(log, emitter, BalanceTransferSig);
  }

  lemma EmitsTwo(x: Log, y: Log, emitter: Address)
    requires x.emitter == y.emitter && x.event.Transfer? && !y.event.Transfer?
    ensures x.emitter != emitter ==> Emits([x, y], emitter, [], [], [], [])
    ensures x.emitter == emitter ==> Emits([x, y], emitter, [x.event], if y.event.Mint? then [y.event] else [],
      if y.event.Burn? then [y.event] else [], if y.event.BalanceTransfer? then [y.event] else [])
  {
    EventsOfTwo(x, y, emitter, TransferSig);
    EventsOfTwo(x, y, emitter, MintSig);
    EventsOfTwo(x, y, emitter, BurnSig);
    EventsOfTwo(x, y, emitter, BalanceTransferSig);
    EmitsOne(x, emitter);
    EventsOfOne(y, emitter, TransferSig);
    EventsOfOne(y, emitter, MintSig);
    EventsOfOne(y, emitter, BurnSig);
    EventsOfOne(y, emitter, BalanceTransferSig);
  }

  lemma EmitsNone(emitter: Address)
    ensures Emits([], emitter, [], [], [], [])
  {
  }

  // ----- supplying and borrowing -----

  /** Besides one movement of the underlying by the amount, from the caller to the aToken or back, the token mints to the
      account its growth and the amount, and says how much of that is growth. */
  lemma MintingEvents(c: Contracts, h: Holdings, action: Action)
    requires Enabled(h, action) && c.token != c.underlying && (action.Supply? || action.VariableBorrow?)
    ensures var (caller, account, amount, index) := (action.caller, action.onBehalfOf, action.amount, action.index);
      var growth := Growth(h, account, index);
      && Emits(Emitted(c, h, action), c.underlying,
           [if action.Supply? then Transfer(caller, c.aToken, amount) else Transfer(c.aToken, caller, amount)], [], [], [])
      && Emits(Emitted(c, h, action), c.token, [Transfer(ZERO_ADDRESS, account, growth + amount)],
           [Mint(caller, account, growth + amount, growth, index)], [], [])
  {
    hide RayMul, RayDiv, Emits;
    var (caller, account, amount, index) := (action.caller, action.onBehalfOf, action.amount, action.index);
    var growth := Growth(h, account, index);
    var moved := Log(c.underlying, if action.Supply? then Transfer(caller, c.aToken, amount) else Transfer(c.aToken, caller, amount));
    var (x, y) := (Log(c.token, Transfer(ZERO_ADDRESS, account, growth + amount)),
      Log(c.token, Mint(caller, account, growth + amount, growth, index)));
    assert Emitted(c, h, action) == [moved] + [x, y];
    hide Emitted, Growth, Enabled;
    Alongside(moved, x, y, c.underlying);
    Alongside(moved, x, y, c.token);
  }

  /** One log of one contract and two of another. */
  lemma Alongside(moved: Log, x: Log, y: Log, emitter: Address)
    requires moved.event.Transfer? && x.emitter == y.emitter != moved.emitter && x.event.Transfer? && (y.event.Mint? || y.event.Burn?)
    requires emitter == moved.emitter || emitter == x.emitter
    ensures emitter == moved.emitter ==> Emits([moved] + [x, y], emitter, [moved.event], [], [], [])
    ensures emitter == x.emitter ==> Emits([moved] + [x, y], emitter, [x.event], if y.event.Mint? then [y.event] else [],
      if y.event.Burn? then [y.event] else [], [])
  {
    hide Emits;
    EmitsOne(moved, emitter);
    EmitsTwo(x, y, emitter);
    if emitter == moved.emitter {
      EmitsConcat([moved], [x, y], emitter, [moved.event], [], [], [], [], [], [], []);
      assert [moved.event] + [] == [moved.event];
    } else {
      var m: seq<Event> := if y.event.Mint? then [y.event] else [];
      var b: seq<Event> := if y.event.Burn? then [y.event] else [];
      EmitsConcat([moved], [x, y], emitter, [], [], [], [], [x.event], m, b, []);
      assert [] + [x.event] == [x.event] && [] + m == m && [] + b == b;
    }
  }

  // ----- withdrawing and repaying -----

  /** The account that withdraws or repays. */
  function Account(action: Action): Address
    requires action.Withdraw? || action.RepayVariable?
  {
    if action.Withdraw? then action.user else action.onBehalfOf
  }

  /** Besides one movement of the underlying by the amount, the token either mints to the account what of its growth is
      left after the amount, or burns what of the amount is left after the growth, and says what the growth was. */
  lemma BurningEvents(c: Contracts, h: Holdings, action: Action)
    requires Enabled(h, action) && c.token != c.underlying && (action.Withdraw? || action.RepayVariable?)
    ensures var (account, amount, index) := (Account(action), action.amount, action.index);
      var growth := Growth(h, account, index);
      var target := if action.Withdraw? then action.to else ZERO_ADDRESS;
      && Emits(Emitted(c, h, action), c.underlying,
           [if action.Withdraw? then Transfer(c.aToken, action.to, amount) else Transfer(action.caller, c.aToken, amount)],
           [], [], [])
      && (growth > amount ==>
            Emits(Emitted(c, h, action), c.token, [Transfer(ZERO_ADDRESS, account, growth - amount)],
              [Mint(account, account, growth - amount, growth, index)], [], []))
      && (growth <= amount ==>
            Emits(Emitted(c, h, action), c.token, [Transfer(account, ZERO_ADDRESS, amount - growth)], [],
              [Burn(account, target, amount - growth, growth, index)], []))
  {
    hide RayMul, RayDiv, Emits;
    var (account, amount, index) := (Account(action), action.amount, action.index);
    var growth := Growth(h, account, index);
    var target := if action.Withdraw? then action.to else ZERO_ADDRESS;
    var moved := Log(c.underlying,
      if action.Withdraw? then Transfer(c.aToken, action.to, amount) else Transfer(action.caller, c.aToken, amount));
    var (x, y) :=
      if growth > amount then
        (Log(c.token, Transfer(ZERO_ADDRESS, account, growth - amount)),
         Log(c.token, Mint(account, account, growth - amount, growth, index)))
      else
        (Log(c.token, Transfer(account, ZERO_ADDRESS, amount - growth)),
         Log(c.token, Burn(account, target, amount - growth, growth, index)));
    assert Emitted(c, h, action) == [moved] + [x, y];
    hide Emitted, Growth, Enabled;
    Alongside(moved, x, y, c.underlying);
    Alongside(moved, x, y, c.token);
  }

  // ----- transferring -----

  /** A transfer moves the amount and its shares between the accounts, and mints to either of them what it has grown by, if it
      has, to the origin first and to an account that transfers to itself once. Nothing else is emitted by anyone. */
  lemma TransferEvents(c: Contracts, h: Holdings, action: Action)
    requires Valid(h) && Enabled(h, action) && action.TransferFrom?
    ensures var (caller, origin, to, amount, index) := (action.caller, action.origin, action.to, action.amount, action.index);
      var (g, g') := (Growth(h, origin, index), if origin == to then 0 else Growth(h, to, index));
      Emits(Emitted(c, h, action), c.token,
        [Transfer(origin, to, amount)]
        + (if g > 0 then [Transfer(ZERO_ADDRESS, origin, g)] else [])
        + (if g' > 0 then [Transfer(ZERO_ADDRESS, to, g')] else []),
        (if g > 0 then [Mint(caller, origin, g, g, index)] else [])
        + (if g' > 0 then [Mint(caller, to, g', g', index)] else []),
        [], [BalanceTransfer(origin, to, RayDiv(amount, index), index)])
    ensures forall log <- Emitted(c, h, action) :: log.emitter == c.token
  {
    hide RayMul, RayDiv, Emits;
    var (caller, origin, to, amount, index) := (action.caller, action.origin, action.to, action.amount, action.index);
    var (g, g') := (Growth(h, origin, index), if origin == to then 0 else Growth(h, to, index));
    var shares := RayDiv(amount, index);
    TransferLogs(c, h, caller, origin, to, amount, index, MintedLogs(c.token, caller, origin, g, index),
      MintedLogs(c.token, caller, to, g', index));
    hide *;
    MovedAndMinted(c.token, caller, origin, to, amount, shares, g, g', index);
    OfOneToken(c.token, caller, origin, to, amount, shares, g, g', index);
  }

  function MintedLogs(token: Address, caller: Address, account: Address, growth: int, index: int): seq<Log> {
    if growth > 0 then MintLogs(token, caller, account, growth, growth, index) else []
  }

  lemma OfOneToken(token: Address, caller: Address, origin: Address, to: Address, amount: int, shares: int, g: int, g': int,
    index: int)
    ensures forall log <- [Log(token, Transfer(origin, to, amount)), Log(token, BalanceTransfer(origin, to, shares, index))]
        + MintedLogs(token, caller, origin, g, index) + MintedLogs(token, caller, to, g', index) :: log.emitter == token
  {
  }

  lemma MovedAndMinted(token: Address, caller: Address, origin: Address, to: Address, amount: int, shares: int, g: int, g': int,
    index: int)
    ensures Emits(
      [Log(token, Transfer(origin, to, amount)), Log(token, BalanceTransfer(origin, to, shares, index))]
        + MintedLogs(token, caller, origin, g, index) + MintedLogs(token, caller, to, g', index), token,
      [Transfer(origin, to, amount)]
      + (if g > 0 then [Transfer(ZERO_ADDRESS, origin, g)] else [])
      + (if g' > 0 then [Transfer(ZERO_ADDRESS, to, g')] else []),
      (if g > 0 then [Mint(caller, origin, g, g, index)] else [])
      + (if g' > 0 then [Mint(caller, to, g', g', index)] else []),
      [], [BalanceTransfer(origin, to, shares, index)])
  {
    hide Emits, MintedLogs;
    var (x, y) := (Log(token, Transfer(origin, to, amount)), Log(token, BalanceTransfer(origin, to, shares, index)));
    var (fromLogs, toLogs) := (MintedLogs(token, caller, origin, g, index), MintedLogs(token, caller, to, g', index));
    EmitsTwo(x, y, token);
    MintsOf(token, caller, origin, g, index);
    MintsOf(token, caller, to, g', index);
    var (t1, m1) := Minted(caller, origin, g, index);
    var (t2, m2) := Minted(caller, to, g', index);
    var s := [y.event];
    EmitsConcat([x, y], fromLogs, token, [x.event], [], [], s, t1, m1, [], []);
    EmitsConcat([x, y] + fromLogs, toLogs, token, [x.event] + t1, [] + m1, [] + [], s + [], t2, m2, [], []);
    assert [] + m1 + m2 == m1 + m2 && s + [] + [] == s;
  }

  /** What minting a growth emits: nothing if there is none. */
  function Minted(caller: Address, account: Address, growth: int, index: int): (seq<Event>, seq<Event>) {
    if growth > 0 then ([Transfer(ZERO_ADDRESS, account, growth)], [Mint(caller, account, growth, growth, index)]) else ([], [])
  }

  lemma MintsOf(token: Address, caller: Address, account: Address, growth: int, index: int)
    ensures var (t, m) := Minted(caller, account, growth, index);
      Emits(MintedLogs(token, caller, account, growth, index), token, t, m, [], [])
  {
    if growth > 0 {
      EmitsTwo(Log(token, Transfer(ZERO_ADDRESS, account, growth)), Log(token, Mint(caller, account, growth, growth, index)), token);
    } else {
      EmitsNone(token);
    }
    hide Emits;
  }

  /** The shares a transfer states are those that leave the origin and reach the other account. */
  lemma SharesStatedAreMoved(h: Holdings, action: Action)
    requires Enabled(h, action) && action.TransferFrom? && action.origin != action.to
    ensures var shares := RayDiv(action.amount, action.index);
      && HoldingOf(After(h, action), action.origin).scaled == HoldingOf(h, action.origin).scaled - shares
      && HoldingOf(After(h, action), action.to).scaled == HoldingOf(h, action.to).scaled + shares
  {
    hide RayDiv;
  }
}
