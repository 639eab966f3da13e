/** Looking for an expected event in the logs of a receipt. */
module EventMatcher {

  datatype Option<T> = None | Some(value: T)

  /** A decoded argument: a big number, a text (address, bytes or string), or an array of these. */
  datatype Scalar = Num(n: int) | Text(s: string)

  datatype Value = One(scalar: Scalar) | Many(items: seq<Scalar>)

  /** `topic` identifies the event's signature. */
  datatype Log = Log(address: string, topic: string, args: seq<Value>)

  /** Conversions between numbers and text: `parse` fails where number conversion throws. */
  datatype Conversions = Conversions(parse: string -> Option<int>, decimal: int -> string)

  datatype Outcome =
    | Matched
    | NoLogs
    | UnknownEvent
    | InvalidLength
    | ConversionError
    | UnexpectedArgs
    | NotFound

  // ----- comparing arguments -----

  datatype Verdict = Same | Different | Throws

  function ScalarText(c: Conversions, x: Scalar): string {
    match x
    case Num(n) => c.decimal(n)
    case Text(s) => s
  }

  function Joined(c: Conversions, items: seq<Scalar>): string {
    if items == [] then ""
    else if |items| == 1 then ScalarText(c, items[0])
    else ScalarText(c, items[0]) + "," + Joined(c, items[1..])
  }

  function ValueText(c: Conversions, x: Value): string {
    match x
    case One(scalar) => ScalarText(c, scalar)
    case Many(items) => Joined(c, items)
  }

  function CompareScalar(c: Conversions, actual: Scalar, expected: Option<Scalar>): Verdict {
    match actual
    case Num(n) =>
      (match expected
       case None => Throws
       case Some(Num(m)) => if n == m then Same else Different
       case Some(Text(s)) =>
         match c.parse(s)
         case None => Throws
         case Some(m) => if n == m then Same else Different)
    case Text(s) => if expected.Some? && s == ScalarText(c, expected.value) then Same else Different
  }

  /** The `j`-th element of an expected value; of a text it is the `j`-th character. */
  function ElementOf(expected: Value, j: nat): Option<Scalar> {
    match expected
    case Many(items) => if j < |items| then Some(items[j]) else None
    case One(Text(s)) => if j < |s| then Some(Text([s[j]])) else None
    case One(Num(_)) => None
  }

  /** Arrays are compared over the length of the emitted one, up to the first difference. */
  function CompareItems(c: Conversions, actual: seq<Scalar>, expected: Value, j: nat): Verdict
    requires j <= |actual|
    decreases |actual| - j
  {
    if j == |actual| then
      Same
    else
      match CompareScalar(c, actual[j], ElementOf(expected, j))
      case Same => CompareItems(c, actual, expected, j + 1)
      case Different => Different
      case Throws => Throws
  }

  function CompareValue(c: Conversions, actual: Value, expected: Value): Verdict {
    match actual
    case One(Num(n)) =>
      if expected.One? then CompareScalar(c, Num(n), Some(expected.scalar)) else Throws
    case One(Text(s)) => if s == ValueText(c, expected) then Same else Different
    case Many(items) => CompareItems(c, items, expected, 0)
  }

  /** An expected empty array stands for empty bytes. */
  function Normal(expected: Value): Value {
    if expected == Many([]) then One(Text("0x")) else expected
  }

  function CompareArgs(c: Conversions, actual: seq<Value>, expected: seq<Value>, i: nat): Verdict
    requires i <= |expected| == |actual|
    decreases |expected| - i
  {
    if i == |expected| then
      Same
    else
      match CompareValue(c, actual[i], Normal(expected[i]))
      case Same => CompareArgs(c, actual, expected, i + 1)
      case Different => Different
      case Throws => Throws
  }

  // ----- searching the logs -----

  predicate Named(signature: string, name: string) {
    |name| < |signature| && signature[..|name|] == name && signature[|name|] == '('
  }

  predicate Candidate(log: Log, topic: string, emitter: Option<string>) {
    log.topic == topic && (emitter.Some? && emitter.value != "" ==> log.address == emitter.value)
  }

  /** The outcome of the search from the `k`-th log on; `seen` says whether a candidate was met before. */
  function Search(c: Conversions, logs: seq<Log>, topic: string, emitter: Option<string>, expected: Option<seq<Value>>,
    k: nat, seen: bool): Outcome
    requires k <= |logs|
    decreases |logs| - k
  {
    if k == |logs| then
      if seen then UnexpectedArgs else NotFound
    else if !Candidate(logs[k], topic, emitter) then
      Search(c, logs, topic, emitter, expected, k + 1, seen)
    else if expected.None? then
      Matched
    else if |expected.value| != |logs[k].args| then
      InvalidLength
    else
      match CompareArgs(c, logs[k].args, expected.value, 0)
      case Same => Matched
      case Throws => ConversionError
      case Different => Search(c, logs, topic, emitter, expected, k + 1, true)
  }

  /** The first signature of the contract with the given name. */
  function FirstNamed(signatures: seq<string>, name: string): Option<string> {
    if signatures == [] then None
    else if Named(signatures[0], name) then Some(signatures[0])
    else FirstNamed(signatures[1..], name)
  }

  function Match(c: Conversions, logs: Option<seq<Log>>, signatures: seq<string>, name: string,
    emitter: Option<string>, expected: Option<seq<Value>>): Outcome
  {
    if logs.None? then NoLogs
    else
      match FirstNamed(signatures, name)
      case None => UnknownEvent
      case Some(signature) => Search(c, logs.value, signature, emitter, expected, 0, false)
  }

  method FindSignature(signatures: seq<string>, name: string) returns (found: Option<string>)
    ensures found == FirstNamed(signatures, name)
    ensures found.None? <==> forall i :: 0 <= i < |signatures| ==> !Named(signatures[i], name)
    ensures found.Some? ==> found.value in signatures && Named(found.value, name)
  {
    found := None;
    for i := 0 to |signatures|
      invariant found.None?
      invariant FirstNamed(signatures, name) == FirstNamed(signatures[i..], name)
      invariant forall j :: 0 <= j < i ==> !Named(signatures[j], name)
    {
      assert signatures[i..][1..] == signatures[i + 1..];
      if Named(signatures[i], name) {
        found := Some(signatures[i]);
        break;
      }
    }
  }

  ghost function Contents(a: array?<Value>): Option<seq<Value>>
    reads a
  {
    if a == null then None else Some(a[..])
  }

  /** Arguments the search has looked at may have been normalised in place; nothing else changes. */
  ghost predicate Rewritten(was: seq<Value>, now: seq<Value>) {
    |was| == |now| && forall k :: 0 <= k < |was| ==> now[k] == was[k] || now[k] == Normal(was[k])
  }

  method CompareOne(c: Conversions, actual: Value, expected: Value) returns (verdict: Verdict)
    ensures verdict == CompareValue(c, actual, expected)
  {
    match actual
    case One(Num(n)) =>
      verdict := if expected.One? then CompareScalar(c, Num(n), Some(expected.scalar)) else Throws;
    case One(Text(s)) =>
      verdict := if s == ValueText(c, expected) then Same else Different;
    case Many(items) =>
      verdict := Same;
      for j := 0 to |items|
        invariant verdict == Same
        invariant CompareItems(c, items, expected, 0) == CompareItems(c, items, expected, j)
      {
        verdict := CompareScalar(c, items[j], ElementOf(expected, j));
        if verdict != Same {
          return;
        }
      }
  }

  /** The argument loop: normalise in place, compare, stop at the first argument that does not match. */
  method CompareAll(c: Conversions, actual: seq<Value>, expectedArgs: array<Value>) returns (verdict: Verdict)
    requires expectedArgs.Length == |actual|
    modifies expectedArgs
    ensures verdict == CompareArgs(c, actual, old(expectedArgs[..]), 0)
    ensures Rewritten(old(expectedArgs[..]), expectedArgs[..])
  {
    ghost var was := expectedArgs[..];
    verdict := Same;
    for i := 0 to expectedArgs.Length
      invariant verdict == Same
      invariant CompareArgs(c, actual, was, 0) == CompareArgs(c, actual, was, i)
      invariant Rewritten(was, expectedArgs[..])
      invariant forall k :: i <= k < |was| ==> expectedArgs[k] == was[k]
    {
      if expectedArgs[i] == Many([]) {
        expectedArgs[i] := One(Text("0x"));
      }
      assert expectedArgs[i] == Normal(was[i]);
      verdict := CompareOne(c, actual[i], expectedArgs[i]);
      if verdict != Same {
        return;
      }
    }
  }

  lemma {:induction false} CompareRewritten(c: Conversions, actual: seq<Value>, was: seq<Value>, now: seq<Value>, i: nat)
    requires i <= |was| == |actual| && Rewritten(was, now)
    ensures CompareArgs(c, actual, was, i) == CompareArgs(c, actual, now, i)
    decreases |was| - i
  {
    if i < |was| {
      assert Normal(now[i]) == Normal(was[i]);
      CompareRewritten(c, actual, was, now, i + 1);
    }
  }

  method MatchEvent(c: Conversions, logs: Option<seq<Log>>, signatures: seq<string>, name: string,
    emitterAddress: Option<string>, expectedArgs: array?<Value>) returns (outcome: Outcome)
    modifies if expectedArgs == null then {} else {expectedArgs}
    ensures outcome == Match(c, logs, signatures, name, emitterAddress, old(Contents(expectedArgs)))
    ensures expectedArgs != null ==> Rewritten(old(expectedArgs[..]), expectedArgs[..])
  {
    if logs.None? {
      return NoLogs;
    }
    var signature := FindSignature(signatures, name);
    if signature.None? {
      return UnknownEvent;
    }
    outcome := SearchLogs(c, logs.value, signature.value, emitterAddress, expectedArgs);
  }

  method SearchLogs(c: Conversions, events: seq<Log>, sigHash: string, emitterAddress: Option<string>,
    expectedArgs: array?<Value>) returns (outcome: Outcome)
    modifies if expectedArgs == null then {} else {expectedArgs}
    ensures outcome == Search(c, events, sigHash, emitterAddress, old(Contents(expectedArgs)), 0, false)
    ensures expectedArgs != null ==> Rewritten(old(expectedArgs[..]), expectedArgs[..])
  {
    hide CompareArgs;
    ghost var was := Contents(expectedArgs);
    var invalidParamsButExists := false;
    for k := 0 to |events|
      invariant expectedArgs != null ==> Rewritten(was.value, expectedArgs[..])
      invariant Search(c, events, sigHash, emitterAddress, was, 0, false)
             == Search(c, events, sigHash, emitterAddress, was, k, invalidParamsButExists)
    {
      var emittedEvent := events[k];
      if emittedEvent.topic == sigHash {
        if emitterAddress.Some? && emitterAddress.value != "" {
          if emittedEvent.address != emitterAddress.value {
            continue;
          }
        }
        if expectedArgs == null {
          return Matched;
        }
        if expectedArgs.Length != |emittedEvent.args| {
          return InvalidLength;
        }
        ghost var now := expectedArgs[..];
        CompareRewritten(c, emittedEvent.args, was.value, now, 0);
        var verdict := CompareAll(c, emittedEvent.args, expectedArgs);
        RewrittenTwice(was.value, now, expectedArgs[..]);
        if verdict == Throws {
          return ConversionError;
        }
        invalidParamsButExists := verdict == Different;
        if !invalidParamsButExists {
          return Matched;
        }
      }
    }
    outcome := if invalidParamsButExists then UnexpectedArgs else NotFound;
  }

  lemma RewrittenTwice(a: seq<Value>, b: seq<Value>, c: seq<Value>)
    requires Rewritten(a, b) && Rewritten(b, c)
    ensures Rewritten(a, c)
  {
  }

  // ----- what a search decides -----

  /** Comparing the arguments with this log is clean: the lengths agree and every number converts. */
  predicate Comparable(c: Conversions, log: Log, expected: seq<Value>) {
    |expected| == |log.args| && CompareArgs(c, log.args, expected, 0) != Throws
  }

  /** All arguments compare as the same, an expected empty array standing for empty bytes. What that says of the
      values themselves is the subject of the last section. */
  predicate ArgsEqual(c: Conversions, log: Log, expected: seq<Value>) {
    && |expected| == |log.args|
    && forall i :: 0 <= i < |expected| ==> CompareValue(c, log.args[i], Normal(expected[i])) == Same
  }

  lemma {:induction false} CompareArgsMeansEqual(c: Conversions, actual: seq<Value>, expected: seq<Value>, i: nat)
    requires i <= |expected| == |actual|
    ensures CompareArgs(c, actual, expected, i) == Same
      <==> forall k :: i <= k < |expected| ==> CompareValue(c, actual[k], Normal(expected[k])) == Same
    decreases |expected| - i
  {
    if i < |expected| {
      CompareArgsMeansEqual(c, actual, expected, i + 1);
    }
  }

  lemma {:induction false} CompareItemsMeansEqual(c: Conversions, actual: seq<Scalar>, expected: Value, j: nat)
    requires j <= |actual|
    ensures CompareItems(c, actual, expected, j) == Same
      <==> forall k :: j <= k < |actual| ==> CompareScalar(c, actual[k], ElementOf(expected, k)) == Same
    decreases |actual| - j
  {
    if j < |actual| {
      CompareItemsMeansEqual(c, actual, expected, j + 1);
    }
  }

  /** If every candidate can be compared, the search succeeds exactly when for some candidate all arguments
      compare as the same; otherwise it reports unexpected arguments exactly when there is a candidate at all. */
  lemma {:induction false} SearchDecides(c: Conversions, logs: seq<Log>, topic: string, emitter: Option<string>,
    expected: seq<Value>, k: nat, seen: bool)
    requires k <= |logs|
    requires forall i :: k <= i < |logs| && Candidate(logs[i], topic, emitter) ==> Comparable(c, logs[i], expected)
    ensures var outcome := Search(c, logs, topic, emitter, Some(expected), k, seen);
      var matches := exists i :: k <= i < |logs| && Candidate(logs[i], topic, emitter) && ArgsEqual(c, logs[i], expected);
      var candidates := exists i :: k <= i < |logs| && Candidate(logs[i], topic, emitter);
      && (outcome == Matched <==> matches)
      && (outcome == UnexpectedArgs <==> !matches && (seen || candidates))
      && (outcome == NotFound <==> !seen && !candidates)
    decreases |logs| - k
  {
    if k < |logs| {
      if Candidate(logs[k], topic, emitter) {
        CompareArgsMeansEqual(c, logs[k].args, expected, 0);
        SearchDecides(c, logs, topic, emitter, expected, k + 1, true);
      } else {
        SearchDecides(c, logs, topic, emitter, expected, k + 1, seen);
      }
    }
  }

  /** The whole call: with logs, a known event and comparable candidates, it returns normally exactly when for some
      candidate all arguments compare as the same, and otherwise says whether there was a candidate. */
  lemma MatchDecides(c: Conversions, logs: seq<Log>, signatures: seq<string>, name: string, emitter: Option<string>,
    expected: seq<Value>)
    requires FirstNamed(signatures, name).Some?
    requires var topic := FirstNamed(signatures, name).value;
      forall i :: 0 <= i < |logs| && Candidate(logs[i], topic, emitter) ==> Comparable(c, logs[i], expected)
    ensures var topic := FirstNamed(signatures, name).value;
      var outcome := Match(c, Some(logs), signatures, name, emitter, Some(expected));
      var matches := exists i :: 0 <= i < |logs| && Candidate(logs[i], topic, emitter) && ArgsEqual(c, logs[i], expected);
      var candidates := exists i :: 0 <= i < |logs| && Candidate(logs[i], topic, emitter);
      && (outcome == Matched <==> matches)
      && (outcome == UnexpectedArgs <==> !matches && candidates)
      && (outcome == NotFound <==> !candidates)
  {
    SearchDecides(c, logs, FirstNamed(signatures, name).value, emitter, expected, 0, false);
  }

  /** Without expected arguments any candidate is a match. */
  lemma {:induction false} SearchWithoutArgs(c: Conversions, logs: seq<Log>, topic: string, emitter: Option<string>, k: nat)
    requires k <= |logs|
    ensures Search(c, logs, topic, emitter, None, k, false)
      == if exists i :: k <= i < |logs| && Candidate(logs[i], topic, emitter) then Matched else NotFound
    decreases |logs| - k
  {
    if k < |logs| && !Candidate(logs[k], topic, emitter) {
      SearchWithoutArgs(c, logs, topic, emitter, k + 1);
    }
  }

  // ----- every outcome -----

  /** A log the search goes past: of another event or emitter, or with an argument that differs. */
  predicate PassedOver(c: Conversions, log: Log, topic: string, emitter: Option<string>, expected: seq<Value>) {
    || log.topic != topic
    || (emitter.Some? && emitter.value != "" && log.address != emitter.value)
    || (|expected| == |log.args| && CompareArgs(c, log.args, expected, 0) == Different)
  }

  /** The first log that is not passed over decides: by its number of arguments, or by its comparison. */
  lemma {:induction false} SearchStopsAt(c: Conversions, logs: seq<Log>, topic: string, emitter: Option<string>,
    expected: seq<Value>, k: nat, n: nat, seen: bool)
    requires k <= n < |logs| && !PassedOver(c, logs[n], topic, emitter, expected)
    requires forall i :: k <= i < n ==> PassedOver(c, logs[i], topic, emitter, expected)
    ensures Search(c, logs, topic, emitter, Some(expected), k, seen)
         == if |expected| != |logs[n].args| then InvalidLength
            else if CompareArgs(c, logs[n].args, expected, 0) == Same then Matched
            else ConversionError
    decreases n - k
  {
    hide CompareArgs;
    if k < n {
      assert PassedOver(c, logs[k], topic, emitter, expected);
      SearchStopsAt(c, logs, topic, emitter, expected, k + 1, n, seen || Candidate(logs[k], topic, emitter));
    }
  }

  /** If all are passed over, it matters only whether one of them was of the event and the emitter. */
  lemma {:induction false} SearchRunsOut(c: Conversions, logs: seq<Log>, topic: string, emitter: Option<string>,
    expected: seq<Value>, k: nat, seen: bool)
    requires k <= |logs|
    requires forall i :: k <= i < |logs| ==> PassedOver(c, logs[i], topic, emitter, expected)
    ensures Search(c, logs, topic, emitter, Some(expected), k, seen)
         == if seen || exists i :: k <= i < |logs| && Candidate(logs[i], topic, emitter) then UnexpectedArgs else NotFound
    decreases |logs| - k
  {
    hide CompareArgs;
    if k < |logs| {
      assert PassedOver(c, logs[k], topic, emitter, expected);
      SearchRunsOut(c, logs, topic, emitter, expected, k + 1, seen || Candidate(logs[k], topic, emitter));
    }
  }

  /** The first argument that does not compare as the same decides a comparison. */
  lemma {:induction false} CompareStopsAt(c: Conversions, actual: seq<Value>, expected: seq<Value>, i: nat, n: nat)
    requires i <= n < |expected| == |actual|
    requires forall j :: i <= j < n ==> CompareValue(c, actual[j], Normal(expected[j])) == Same
    requires CompareValue(c, actual[n], Normal(expected[n])) != Same
    ensures CompareArgs(c, actual, expected, i) == CompareValue(c, actual[n], Normal(expected[n]))
    decreases n - i
  {
    hide CompareValue;
    if i < n {
      CompareStopsAt(c, actual, expected, i + 1, n);
    }
  }

  /** The call as a whole: no logs and an unknown name are reported before anything is searched; a call that returns
      normally has found a log of the named event from the emitter asked for, if one was. */
  lemma MatchIsOfTheEvent(c: Conversions, logs: Option<seq<Log>>, signatures: seq<string>, name: string,
    emitter: Option<string>, expected: Option<seq<Value>>)
    ensures var outcome := Match(c, logs, signatures, name, emitter, expected);
      && (outcome == NoLogs <==> logs.None?)
      && (outcome == UnknownEvent <==>
            logs.Some? && forall i :: 0 <= i < |signatures| ==> !Named(signatures[i], name))
      && (outcome == Matched ==>
            && logs.Some? && FirstNamed(signatures, name).Some?
            && exists i :: 0 <= i < |logs.value| && logs.value[i].topic == FirstNamed(signatures, name).value
                 && (emitter.Some? && emitter.value != "" ==> logs.value[i].address == emitter.value))
  {
    FirstNamedFinds(signatures, name);
    if logs.Some? && FirstNamed(signatures, name).Some? {
      SearchFinds(c, logs.value, FirstNamed(signatures, name).value, emitter, expected, 0, false);
    }
    hide Search, FirstNamed;
  }

  lemma {:induction false} FirstNamedFinds(signatures: seq<string>, name: string)
    ensures FirstNamed(signatures, name).None? <==> forall i :: 0 <= i < |signatures| ==> !Named(signatures[i], name)
  {
    if signatures != [] && !Named(signatures[0], name) {
      FirstNamedFinds(signatures[1..], name);
      assert forall i :: 1 <= i < |signatures| ==> signatures[i] == signatures[1..][i - 1];
      if FirstNamed(signatures[1..], name).Some? {
        var i :| 0 <= i < |signatures[1..]| && Named(signatures[1..][i], name);
        assert Named(signatures[i + 1], name);
      }
    }
  }

  lemma {:induction false} SearchFinds(c: Conversions, logs: seq<Log>, topic: string, emitter: Option<string>,
    expected: Option<seq<Value>>, k: nat, seen: bool)
    requires k <= |logs|
    ensures Search(c, logs, topic, emitter, expected, k, seen) !in {NoLogs, UnknownEvent}
    ensures Search(c, logs, topic, emitter, expected, k, seen) == Matched ==>
      exists i :: k <= i < |logs| && logs[i].topic == topic
        && (emitter.Some? && emitter.value != "" ==> logs[i].address == emitter.value)
    decreases |logs| - k
  {
    hide CompareArgs;
    if k < |logs| {
      SearchFinds(c, logs, topic, emitter, expected, k + 1, seen);
      SearchFinds(c, logs, topic, emitter, expected, k + 1, true);
    }
  }

  // ----- numbers against text -----

  /** An emitted number is compared with what the expected text parses to, and a text that does not parse is an error. An
      emitted text is compared with the expected number's decimal text. */
  lemma MixedScalars(c: Conversions, n: int, s: string)
    ensures CompareScalar(c, Num(n), Some(Text(s))) == Same <==> c.parse(s) == Some(n)
    ensures CompareScalar(c, Num(n), Some(Text(s))) == Throws <==> c.parse(s) == None
    ensures CompareScalar(c, Text(s), Some(Num(n))) == Same <==> s == c.decimal(n)
    ensures CompareScalar(c, Text(s), Some(Num(n))) != Throws
    ensures CompareScalar(c, Num(n), None) == Throws && CompareScalar(c, Text(s), None) == Different
  {
  }

  /** An emitted text is compared with an expected array's elements joined by commas, and an emitted number with no array. */
  lemma TextAgainstArray(c: Conversions, s: string, n: int, items: seq<Scalar>)
    ensures CompareValue(c, One(Text(s)), Many(items)) == Same <==> s == Joined(c, items)
    ensures CompareValue(c, One(Text(s)), Many(items)) != Throws
    ensures CompareValue(c, One(Num(n)), Many(items)) == Throws
    ensures items == [] ==> Joined(c, items) == ""
    ensures |items| == 1 ==> Joined(c, items) == if items[0].Num? then c.decimal(items[0].n) else items[0].s
  {
  }

  /** Joining goes on after a comma. */
  lemma {:induction false} JoinedConcat(c: Conversions, xs: seq<Scalar>, ys: seq<Scalar>)
    requires xs != [] && ys != []
    ensures Joined(c, xs + ys) == Joined(c, xs) + "," + Joined(c, ys)
  {
    assert (xs + ys)[1..] == xs[1..] + ys;
    if |xs| > 1 {
      JoinedConcat(c, xs[1..], ys);
    } else {
      assert xs[1..] + ys == ys;
    }
  }

  // ----- when a match means equal values -----

  /** An emitted array matches an expected one if and only if it is a prefix of it, element by element... */
  lemma ArrayMatchIsPrefix(c: Conversions, actual: seq<Scalar>, expected: seq<Scalar>)
    ensures CompareValue(c, Many(actual), Many(expected)) == Same
      <==> |actual| <= |expected| && forall k :: 0 <= k < |actual| ==> CompareScalar(c, actual[k], Some(expected[k])) == Same
  {
    CompareItemsMeansEqual(c, actual, Many(expected), 0);
    if |expected| < |actual| {
      assert ElementOf(Many(expected), |expected|) == None;
      assert CompareScalar(c, actual[|expected|], ElementOf(Many(expected), |expected|)) != Same;
    }
  }

  /** ...so for an expected array no longer than the emitted one a match means arrays that are equal. */
  lemma ArrayMatchMeansEqual(c: Conversions, actual: seq<Scalar>, expected: seq<Scalar>)
    requires |expected| <= |actual|
    ensures CompareValue(c, Many(actual), Many(expected)) == Same
      <==> |actual| == |expected| && forall k :: 0 <= k < |actual| ==> CompareScalar(c, actual[k], Some(expected[k])) == Same
  {
    ArrayMatchIsPrefix(c, actual, expected);
  }

  /** The emitted value that matches whatever is expected is the empty array, and no other. */
  lemma OnlyEmptyArrayMatchesAll(c: Conversions, actual: Value)
    ensures (forall expected: Value :: CompareValue(c, actual, expected) == Same) <==> actual == Many([])
  {
    match actual
    case One(Num(n)) => assert CompareValue(c, actual, Many([])) != Same;
    case One(Text(s)) => assert CompareValue(c, actual, One(Text(s + "x"))) != Same;
    case Many(items) =>
      if items != [] {
        ArrayMatchIsPrefix(c, items, []);
        assert CompareValue(c, actual, Many([])) != Same;
      }
  }

  /** An expected empty array is compared as the text of empty bytes, so besides that text and the empty array it
      matches any array of the first one or two characters of that text. */
  lemma EmptyExpectedMatches(c: Conversions, items: seq<Scalar>)
    requires forall k :: 0 <= k < |items| ==> items[k].Text?
    ensures CompareValue(c, Many(items), Normal(Many([]))) == Same
      <==> items == [] || items == [Text("0")] || items == [Text("0"), Text("x")]
  {
    var expected := Normal(Many([]));
    CompareItemsMeansEqual(c, items, expected, 0);
    assert ElementOf(expected, 0) == Some(Text("0")) && ElementOf(expected, 1) == Some(Text("x"));
    if |items| > 2 {
      assert ElementOf(expected, 2) == None;
      assert CompareScalar(c, items[2], ElementOf(expected, 2)) == Different;
    }
  }

  predicate SameKind(x: Scalar, y: Scalar) {
    x.Num? <==> y.Num?
  }

  /** Values of the same type, the expected array no longer than the emitted one and empty only if that is. */
  predicate Alike(actual: Value, expected: Value) {
    match (actual, expected)
    case (One(x), One(y)) => SameKind(x, y)
    case (Many(xs), Many(ys)) =>
      && |ys| <= |xs| && (ys == [] ==> xs == [])
      && forall k :: 0 <= k < |ys| ==> SameKind(xs[k], ys[k])
    case _ => false
  }

  /** Values that are alike match if and only if they are equal. */
  lemma AlikeMatchMeansEqual(c: Conversions, actual: Value, expected: Value)
    requires Alike(actual, expected)
    ensures CompareValue(c, actual, Normal(expected)) == Same <==> actual == expected
  {
    if actual.Many? && expected.items != [] {
      ArrayMatchIsPrefix(c, actual.items, expected.items);
      if CompareValue(c, actual, expected) == Same {
        assert forall k :: 0 <= k < |actual.items| ==> actual.items[k] == expected.items[k];
      }
    }
  }

  predicate ArgsAlike(log: Log, expected: seq<Value>) {
    |expected| == |log.args| && forall i :: 0 <= i < |expected| ==> Alike(log.args[i], expected[i])
  }

  /** For expected arguments of the candidates' types the whole call returns normally if and only if some candidate
      was emitted with exactly these arguments. */
  lemma MatchFindsEqual(c: Conversions, logs: seq<Log>, signatures: seq<string>, name: string, emitter: Option<string>,
    expected: seq<Value>)
    requires FirstNamed(signatures, name).Some?
    requires var topic := FirstNamed(signatures, name).value;
      forall i :: 0 <= i < |logs| && Candidate(logs[i], topic, emitter) ==>
        Comparable(c, logs[i], expected) && ArgsAlike(logs[i], expected)
    ensures var topic := FirstNamed(signatures, name).value;
      Match(c, Some(logs), signatures, name, emitter, Some(expected)) == Matched
      <==> exists i :: 0 <= i < |logs| && Candidate(logs[i], topic, emitter) && logs[i].args == expected
  {
    var topic := FirstNamed(signatures, name).value;
    MatchDecides(c, logs, signatures, name, emitter, expected);
    forall i | 0 <= i < |logs| && Candidate(logs[i], topic, emitter)
      ensures ArgsEqual(c, logs[i], expected) <==> logs[i].args == expected
    {
      AlikeArgsEqual(c, logs[i], expected);
    }
  }

  lemma AlikeArgsEqual(c: Conversions, log: Log, expected: seq<Value>)
    requires ArgsAlike(log, expected)
    ensures ArgsEqual(c, log, expected) <==> log.args == expected
  {
    forall i | 0 <= i < |expected|
      ensures CompareValue(c, log.args[i], Normal(expected[i])) == Same <==> log.args[i] == expected[i]
    {
      AlikeMatchMeansEqual(c, log.args[i], expected[i]);
    }
  }

  /** Outside these conditions it is not equality that is checked: an expected array may be longer than the emitted
      one and still match, whatever comes after. */
  lemma LongerExpectedArrayMatches(c: Conversions, items: seq<Scalar>, more: seq<Scalar>)
    ensures CompareValue(c, Many(items), Many(items + more)) == Same
  {
    ArrayMatchIsPrefix(c, items, items + more);
  }
}
