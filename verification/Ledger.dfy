/** Token events and the balances rebuilt from them. Every action on a rebasing token emits
    Transfer, Mint and Burn events; replaying them must track what the shares are really worth. */
module Ledger {

  type Address = nat

  const ZERO_ADDRESS: Address := 0

  datatype Event =
    | Transfer(from: Address, to: Address, value: int)
    | Mint(caller: Address, onBehalfOf: Address, value: int, balanceIncrease: int, index: int)
    | Burn(from: Address, target: Address, value: int, balanceIncrease: int, index: int)
    | BalanceTransfer(from: Address, to: Address, value: int, index: int)

  datatype Signature = TransferSig | MintSig | BurnSig | BalanceTransferSig

  function SignatureOf(e: Event): Signature {
    match e
    case Transfer(_, _, _) => TransferSig
    case Mint(_, _, _, _, _) => MintSig
    case Burn(_, _, _, _, _) => BurnSig
    case BalanceTransfer(_, _, _, _) => BalanceTransferSig
  }

  /** A decoded log entry and the contract that emitted it. */
  datatype Log = Log(emitter: Address, event: Event)

  // ----- reading events off a receipt -----

  function EventsOf(logs: seq<Log>, token: Address, signature: Signature): seq<Event> {
    if logs == [] then
      []
    else
      var (front, last) := (logs[..|logs| - 1], logs[|logs| - 1]);
      EventsOf(front, token, signature)
      + if last.emitter == token && SignatureOf(last.event) == signature then [last.event] else []
  }

  method GetATokenEvent(logs: seq<Log>, token: Address, signature: Signature) returns (results: seq<Event>)
    ensures results == EventsOf(logs, token, signature)
  {
    results := [];
    for i := 0 to |logs|
      invariant results == EventsOf(logs[..i], token, signature)
    {
      assert logs[..i + 1][..i] == logs[..i];
      if SignatureOf(logs[i].event) == signature && logs[i].emitter == token {
        results := results + [logs[i].event];
      }
    }
    assert logs[..|logs|] == logs;
  }

  /** Exactly the token's own events with the signature are returned. */
  lemma {:induction false} EventsOfMembers(logs: seq<Log>, token: Address, signature: Signature, e: Event)
    ensures e in EventsOf(logs, token, signature) <==> Log(token, e) in logs && SignatureOf(e) == signature
  {
    if logs != [] {
      var (front, last) := (logs[..|logs| - 1], logs[|logs| - 1]);
      EventsOfMembers(front, token, signature, e);
      assert logs == front + [last];
    }
  }

  /** They come in the order of the receipt: one entry is one event or none, and what a receipt continues with comes
      after what it began with. */
  lemma EventsOfOne(log: Log, token: Address, signature: Signature)
    ensures EventsOf([log], token, signature)
         == if log.emitter == token && SignatureOf(log.event) == signature then [log.event] else []
  {
    assert [log][..0] == [];
    assert EventsOf([], token, signature) == [];
  }

  lemma {:induction false} EventsOfConcat(x: seq<Log>, y: seq<Log>, token: Address, signature: Signature)
    ensures EventsOf(x + y, token, signature) == EventsOf(x, token, signature) + EventsOf(y, token, signature)
  {
    if y == [] {
      assert x + y == x;
    } else {
      var front := y[..|y| - 1];
      EventsOfConcat(x, front, token, signature);
      assert (x + y)[..|x + y| - 1] == x + front;
    }
  }

  // ----- replaying events into a table of balances -----

  /** An entry is undefined once an account the table did not start with has been written to. */
  datatype Entry = Undefined | Balance(value: int)

  type Table = map<Address, Entry>

  function EntryOf(b: Table, a: Address): Entry {
    if a in b then b[a] else Undefined
  }

  predicate Tracked(b: Table, a: Address) {
    EntryOf(b, a).Balance?
  }

  /** Optional chaining: an undefined balance stays undefined, but it is written back. */
  function Adjusted(b: Table, a: Address, delta: int): Table {
    b[a := match EntryOf(b, a)
           case Undefined => Undefined
           case Balance(value) => Balance(value + delta)]
  }

  function Replayed(b: Table, e: Event): Table {
    match e
    case Transfer(from, to, value) =>
      if from == ZERO_ADDRESS || to == ZERO_ADDRESS then b else Adjusted(Adjusted(b, from, -value), to, value)
    case Mint(_, onBehalfOf, value, _, _) => Adjusted(b, onBehalfOf, value)
    case Burn(from, _, value, balanceIncrease, _) =>
      Adjusted(Adjusted(b, from, -(value + balanceIncrease)), from, balanceIncrease)
    case BalanceTransfer(_, _, _, _) => b
  }

  function ReplayAll(b: Table, events: seq<Event>): Table {
    if events == [] then b
    else Replayed(ReplayAll(b, events[..|events| - 1]), events[|events| - 1])
  }

  /** Three passes over a receipt: transfers, then mints, then burns. */
  function Replay(b: Table, logs: seq<Log>, token: Address): Table {
    ReplayAll(ReplayAll(ReplayAll(b, EventsOf(logs, token, TransferSig)), EventsOf(logs, token, MintSig)),
      EventsOf(logs, token, BurnSig))
  }

  class Balances {
    var balance: Table

    constructor (accounts: set<Address>)
      ensures balance == map a | a in accounts :: Balance(0)
    {
      balance := map a | a in accounts :: Balance(0);
    }

    method Change(a: Address, delta: int)
      modifies this
      ensures balance == Adjusted(old(balance), a, delta)
    {
      if a in balance && balance[a].Balance? {
        balance := balance[a := Balance(balance[a].value + delta)];
      } else {
        balance := balance[a := Undefined];
      }
    }

    /** Transfers to or from the zero address are skipped: their mint or burn is replayed instead. */
    method ReplayTransfers(events: seq<Event>)
      requires forall i | 0 <= i < |events| :: events[i].Transfer?
      modifies this
      ensures balance == ReplayAll(old(balance), events)
    {
      for i := 0 to |events|
        invariant balance == ReplayAll(old(balance), events[..i])
      {
        assert events[..i + 1][..i] == events[..i];
        var ev := events[i];
        if ev.from == ZERO_ADDRESS || ev.to == ZERO_ADDRESS {
          continue;
        }
        Change(ev.from, -ev.value);
        Change(ev.to, ev.value);
      }
      assert events[..|events|] == events;
    }

    method ReplayMints(events: seq<Event>)
      requires forall i | 0 <= i < |events| :: events[i].Mint?
      modifies this
      ensures balance == ReplayAll(old(balance), events)
    {
      for i := 0 to |events|
        invariant balance == ReplayAll(old(balance), events[..i])
      {
        assert events[..i + 1][..i] == events[..i];
        Change(events[i].onBehalfOf, events[i].value);
      }
      assert events[..|events|] == events;
    }

    method ReplayBurns(events: seq<Event>)
      requires forall i | 0 <= i < |events| :: events[i].Burn?
      modifies this
      ensures balance == ReplayAll(old(balance), events)
    {
      for i := 0 to |events|
        invariant balance == ReplayAll(old(balance), events[..i])
      {
        assert events[..i + 1][..i] == events[..i];
        var ev := events[i];
        Change(ev.from, -(ev.value + ev.balanceIncrease));
        Change(ev.from, ev.balanceIncrease);
      }
      assert events[..|events|] == events;
    }

    method UpdateBalances(logs: seq<Log>, token: Address)
      modifies this
      ensures balance == Replay(old(balance), logs, token)
    {
      EventsHaveSignature(logs, token, TransferSig);
      EventsHaveSignature(logs, token, MintSig);
      EventsHaveSignature(logs, token, BurnSig);
      var events := GetATokenEvent(logs, token, TransferSig);
      ReplayTransfers(events);
      events := GetATokenEvent(logs, token, MintSig);
      ReplayMints(events);
      events := GetATokenEvent(logs, token, BurnSig);
      ReplayBurns(events);
    }
  }

  lemma EventsHaveSignature(logs: seq<Log>, token: Address, signature: Signature)
    ensures forall i | 0 <= i < |EventsOf(logs, token, signature)| ::
      SignatureOf(EventsOf(logs, token, signature)[i]) == signature
  {
    var events := EventsOf(logs, token, signature);
    forall i | 0 <= i < |events|
      ensures SignatureOf(events[i]) == signature
    {
      EventsOfMembers(logs, token, signature, events[i]);
    }
  }

  // ----- what a replay amounts to -----

  /** What one event means for one account. */
  function Effect(e: Event, a: Address): int {
    match e
    case Transfer(from, to, value) =>
      if from == ZERO_ADDRESS || to == ZERO_ADDRESS then 0
      else (if to == a then value else 0) - (if from == a then value else 0)
    case Mint(_, onBehalfOf, value, _, _) => if onBehalfOf == a then value else 0
    case Burn(from, _, value, _, _) => if from == a then -value else 0
    case BalanceTransfer(_, _, _, _) => 0
  }

  function SumOf(events: seq<Event>, a: Address): int {
    if events == [] then 0 else SumOf(events[..|events| - 1], a) + Effect(events[|events| - 1], a)
  }

  /** The token's entries of a receipt, each counted once, in whatever order they come. */
  function NetEffect(logs: seq<Log>, token: Address, a: Address): int {
    if logs == [] then
      0
    else
      var last := logs[|logs| - 1];
      NetEffect(logs[..|logs| - 1], token, a) + if last.emitter == token then Effect(last.event, a) else 0
  }

  /** Whether replaying an event writes to an account's entry. */
  predicate WritesTo(e: Event, a: Address) {
    match e
    case Transfer(from, to, _) => from != ZERO_ADDRESS && to != ZERO_ADDRESS && (a == from || a == to)
    case Mint(_, onBehalfOf, _, _, _) => a == onBehalfOf
    case Burn(from, _, _, _, _) => a == from
    case BalanceTransfer(_, _, _, _) => false
  }

  ghost predicate Written(events: seq<Event>, a: Address) {
    exists e :: e in events && WritesTo(e, a)
  }

  lemma {:induction false} ReplayAllAddsUp(b: Table, events: seq<Event>, a: Address)
    ensures Tracked(b, a) <==> Tracked(ReplayAll(b, events), a)
    ensures Tracked(b, a) ==> ReplayAll(b, events)[a].value == b[a].value + SumOf(events, a)
    ensures a in ReplayAll(b, events) <==> a in b || Written(events, a)
  {
    if events != [] {
      var (front, last) := (events[..|events| - 1], events[|events| - 1]);
      ReplayAllAddsUp(b, front, a);
      assert events == front + [last];
      WrittenStep(front, last, a);
    }
  }

  lemma WrittenStep(front: seq<Event>, last: Event, a: Address)
    ensures Written(front + [last], a) <==> Written(front, a) || WritesTo(last, a)
  {
    assert last in front + [last];
    if e :| e in front && WritesTo(e, a) {
      assert e in front + [last];
    }
  }

  lemma {:induction false} PassesCoverEffects(logs: seq<Log>, token: Address, a: Address)
    ensures SumOf(EventsOf(logs, token, TransferSig), a) + SumOf(EventsOf(logs, token, MintSig), a)
          + SumOf(EventsOf(logs, token, BurnSig), a) == NetEffect(logs, token, a)
  {
    if logs != [] {
      var (front, last) := (logs[..|logs| - 1], logs[|logs| - 1]);
      PassesCoverEffects(front, token, a);
      SumOfStep(front, last, token, TransferSig, a);
      SumOfStep(front, last, token, MintSig, a);
      SumOfStep(front, last, token, BurnSig, a);
      assert logs == front + [last];
    }
  }

  lemma SumOfStep(front: seq<Log>, last: Log, token: Address, signature: Signature, a: Address)
    ensures SumOf(EventsOf(front + [last], token, signature), a)
         == SumOf(EventsOf(front, token, signature), a)
          + if last.emitter == token && SignatureOf(last.event) == signature then Effect(last.event, a) else 0
  {
    var logs := front + [last];
    assert logs[..|logs| - 1] == front;
    if last.emitter == token && SignatureOf(last.event) == signature {
      var events := EventsOf(front, token, signature) + [last.event];
      assert events[..|events| - 1] == EventsOf(front, token, signature);
    } else {
      assert EventsOf(front, token, signature) + [] == EventsOf(front, token, signature);
    }
  }

  /** The three passes change a tracked account by exactly the sum of the receipt's effects on it, leave every
      other account without a balance, and add an entry for exactly the accounts the token's events write to. */
  lemma ReplayIsNetEffect(b: Table, logs: seq<Log>, token: Address, a: Address)
    ensures Tracked(b, a) <==> Tracked(Replay(b, logs, token), a)
    ensures Tracked(b, a) ==> Replay(b, logs, token)[a].value == b[a].value + NetEffect(logs, token, a)
    ensures a in Replay(b, logs, token) <==> a in b || exists e :: Log(token, e) in logs && WritesTo(e, a)
  {
    var (transfers, mints, burns) :=
      (EventsOf(logs, token, TransferSig), EventsOf(logs, token, MintSig), EventsOf(logs, token, BurnSig));
    ReplayAllAddsUp(b, transfers, a);
    ReplayAllAddsUp(ReplayAll(b, transfers), mints, a);
    ReplayAllAddsUp(ReplayAll(ReplayAll(b, transfers), mints), burns, a);
    PassesCoverEffects(logs, token, a);
    WrittenInAPass(logs, token, a);
  }

  lemma WrittenInAPass(logs: seq<Log>, token: Address, a: Address)
    ensures (exists e :: Log(token, e) in logs && WritesTo(e, a))
        <==> (Written(EventsOf(logs, token, TransferSig), a)
              || Written(EventsOf(logs, token, MintSig), a)
              || Written(EventsOf(logs, token, BurnSig), a))
  {
    forall e, signature: Signature
      ensures e in EventsOf(logs, token, signature) <==> Log(token, e) in logs && SignatureOf(e) == signature
    {
      EventsOfMembers(logs, token, signature, e);
    }
    hide EventsOf;
  }
}
