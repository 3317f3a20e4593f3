/** The iterative duplicate-key recogniser (internal/strictjson/keys.go), over token streams. */
module StrictJson {
  import opened Options
  import opened JsonTokens

  datatype Error =
    | DecodeFailed
    | MultipleRoots
    | ValueWithoutKey
    | KeyNotString
    | RootNotObject
    | DelimitersDoNotMatch
    | KeyHasNoValue
    | UnexpectedDelimiter
    | DuplicateKey
    | UnexpectedKey(key: string)
    | MissingKey(key: string)
    | NotClosed
    | NotExactlyOneValue

  datatype Outcome = Accepted | Rejected(error: Error)

  /** The arguments of `validateObjectKeys`: zero checks every depth. */
  datatype Mode = Mode(checkedDepth: int, allowedRootKeys: seq<string>, exactRoot: bool)

  /** One open container; `keys` is `None` for the nil set of an unchecked container. */
  datatype Container = Container(delimiter: char, expectKey: bool, keys: Option<set<string>>)

  // ----- what is accepted, stated on values -----

  predicate ChecksDepth(checkedDepth: int, depth: int) {
    checkedDepth == 0 || depth <= checkedDepth
  }

  /** No object at a checked container depth repeats a key (section 4 of RFC 8259). */
  predicate UniqueKeys(v: Json, depth: int, checkedDepth: int) {
    match v
    case Leaf(_) => true
    case Object(ms) => (ChecksDepth(checkedDepth, depth) ==> DistinctKeys(ms))
        && UniqueInMembers(ms, depth + 1, checkedDepth)
    case Array(xs) => UniqueInItems(xs, depth + 1, checkedDepth)
  }

  predicate UniqueInMembers(ms: Members, depth: int, checkedDepth: int) {
    match ms
    case NoMember => true
    case Member(_, v, more) => UniqueKeys(v, depth, checkedDepth) && UniqueInMembers(more, depth, checkedDepth)
  }

  predicate UniqueInItems(xs: Items, depth: int, checkedDepth: int) {
    match xs
    case NoItem => true
    case Item(v, more) => UniqueKeys(v, depth, checkedDepth) && UniqueInItems(more, depth, checkedDepth)
  }

  predicate DistinctKeys(ms: Members) {
    match ms
    case NoMember => true
    case Member(k, _, more) => k !in Keys(more) && DistinctKeys(more)
  }

  predicate Admissible(mode: Mode, v: Json) {
    && UniqueKeys(v, 1, mode.checkedDepth)
    && (mode.exactRoot ==> v.Object? && forall k :: k in Keys(v.members) ==> k in mode.allowedRootKeys)
  }

  // ----- the first fault of a value, in reading order -----

  function Fault(mode: Mode, v: Json, depth: int): Option<Error> {
    if depth == 1 && mode.exactRoot && !v.Object? then Some(RootNotObject)
    else
      match v
      case Leaf(_) => None
      case Object(ms) =>
        MembersFault(mode, ms, depth, if ChecksDepth(mode.checkedDepth, depth) then Some({}) else None)
      case Array(xs) => ItemsFault(mode, xs, depth)
  }

  function MembersFault(mode: Mode, ms: Members, depth: int, seen: Option<set<string>>): Option<Error> {
    match ms
    case NoMember => None
    case Member(k, v, more) =>
      if seen.Some? && k in seen.value then Some(DuplicateKey)
      else if depth == 1 && mode.exactRoot && k !in mode.allowedRootKeys then Some(UnexpectedKey(k))
      else
        match Fault(mode, v, depth + 1)
        case Some(e) => Some(e)
        case None => MembersFault(mode, more, depth, AddKey(seen, k))
  }

  function ItemsFault(mode: Mode, xs: Items, depth: int): Option<Error> {
    match xs
    case NoItem => None
    case Item(v, more) =>
      match Fault(mode, v, depth + 1)
      case Some(e) => Some(e)
      case None => ItemsFault(mode, more, depth)
  }

  function AddKey(seen: Option<set<string>>, k: string): Option<set<string>> {
    match seen
    case None => None
    case Some(s) => Some(s + {k})
  }

  lemma {:induction false} NoFaultIffUnique(mode: Mode, v: Json, depth: int)
    requires depth > 1
    ensures Fault(mode, v, depth).None? <==> UniqueKeys(v, depth, mode.checkedDepth)
    decreases v
  {
    match v
    case Leaf(_) =>
    case Object(ms) =>
      MembersNoFaultIff(mode, ms, depth, if ChecksDepth(mode.checkedDepth, depth) then Some({}) else None);
    case Array(xs) =>
      ItemsNoFaultIff(mode, xs, depth);
  }

  lemma {:induction false} MembersNoFaultIff(mode: Mode, ms: Members, depth: int, seen: Option<set<string>>)
    requires depth >= 1
    ensures MembersFault(mode, ms, depth, seen).None? <==>
            && (seen.Some? ==> DistinctKeys(ms) && Keys(ms) !! seen.value)
            && UniqueInMembers(ms, depth + 1, mode.checkedDepth)
            && (depth == 1 && mode.exactRoot ==> forall k :: k in Keys(ms) ==> k in mode.allowedRootKeys)
    decreases ms
  {
    match ms
    case NoMember =>
    case Member(k, v, more) =>
      NoFaultIffUnique(mode, v, depth + 1);
      MembersNoFaultIff(mode, more, depth, AddKey(seen, k));
  }

  lemma {:induction false} ItemsNoFaultIff(mode: Mode, xs: Items, depth: int)
    requires depth >= 1
    ensures ItemsFault(mode, xs, depth).None? <==> UniqueInItems(xs, depth + 1, mode.checkedDepth)
    decreases xs
  {
    match xs
    case NoItem =>
    case Item(v, more) =>
      NoFaultIffUnique(mode, v, depth + 1);
      ItemsNoFaultIff(mode, more, depth);
  }

  lemma NoFaultIffAdmissible(mode: Mode, v: Json)
    ensures Fault(mode, v, 1).None? <==> Admissible(mode, v)
  {
    match v
    case Leaf(_) =>
    case Object(ms) =>
      MembersNoFaultIff(mode, ms, 1, if ChecksDepth(mode.checkedDepth, 1) then Some({}) else None);
    case Array(xs) =>
      ItemsNoFaultIff(mode, xs, 1);
  }

  // ----- the machine -----

  datatype State = State(stack: seq<Container>, rootValues: nat)
  datatype Step = Next(state: State) | Stop(error: Error)

  predicate Matching(opening: char, closing: char) {
    (opening == '{' && closing == '}') || (opening == '[' && closing == ']')
  }

  function Top(stack: seq<Container>): Container
    requires |stack| > 0
  {
    stack[|stack| - 1]
  }

  function CompleteValue(st: State): Step {
    if |st.stack| == 0 then
      if st.rootValues + 1 > 1 then Stop(MultipleRoots) else Next(st.(rootValues := st.rootValues + 1))
    else if Top(st.stack).delimiter == '{' then
      if Top(st.stack).expectKey then Stop(ValueWithoutKey)
      else Next(st.(stack := st.stack[|st.stack| - 1 := Top(st.stack).(expectKey := true)]))
    else Next(st)
  }

  function Open(mode: Mode, st: State, c: char): Step {
    if |st.stack| > 0 && Top(st.stack).delimiter == '{' && Top(st.stack).expectKey then Stop(KeyNotString)
    else if |st.stack| == 0 && st.rootValues != 0 then Stop(MultipleRoots)
    else if |st.stack| == 0 && mode.exactRoot && c != '{' then Stop(RootNotObject)
    else
      var checked := c == '{' && ChecksDepth(mode.checkedDepth, |st.stack| + 1);
      Next(st.(stack := st.stack + [Container(c, c == '{', if checked then Some({}) else None)]))
  }

  function Close(st: State, c: char): Step {
    if |st.stack| == 0 || !Matching(Top(st.stack).delimiter, c) then Stop(DelimitersDoNotMatch)
    else if Top(st.stack).delimiter == '{' && !Top(st.stack).expectKey then Stop(KeyHasNoValue)
    else CompleteValue(st.(stack := st.stack[..|st.stack| - 1]))
  }

  function TakeKey(mode: Mode, st: State, key: string): Step
    requires |st.stack| > 0
  {
    var current := Top(st.stack);
    if current.keys.Some? && key in current.keys.value then Stop(DuplicateKey)
    else if |st.stack| == 1 && mode.exactRoot && key !in mode.allowedRootKeys then Stop(UnexpectedKey(key))
    else Next(st.(stack := st.stack[|st.stack| - 1 := Container(current.delimiter, false, AddKey(current.keys, key))]))
  }

  function Advance(mode: Mode, st: State, token: Token): Step {
    match token
    case Delim(c) =>
      if c == '{' || c == '[' then Open(mode, st, c)
      else if c == '}' || c == ']' then Close(st, c)
      else Stop(UnexpectedDelimiter)
    case Value(scalar) =>
      if |st.stack| > 0 && Top(st.stack).delimiter == '{' && Top(st.stack).expectKey then
        if scalar.Text? then TakeKey(mode, st, scalar.text) else Stop(KeyNotString)
      else if |st.stack| == 0 && mode.exactRoot then Stop(RootNotObject)
      else CompleteValue(st)
  }

  function Finish(st: State, broken: bool): Outcome {
    if broken then Rejected(DecodeFailed)
    else if |st.stack| != 0 then Rejected(NotClosed)
    else if st.rootValues != 1 then Rejected(NotExactlyOneValue)
    else Accepted
  }

  function Run(mode: Mode, st: State, ts: seq<Token>, broken: bool): Outcome
    decreases |ts|
  {
    if |ts| == 0 then Finish(st, broken)
    else
      match Advance(mode, st, ts[0])
      case Stop(e) => Rejected(e)
      case Next(st') => Run(mode, st', ts[1..], broken)
  }

  const START := State([], 0)

  /** The machine waits for a value: at the root, after a key, or inside an array. */
  predicate Ready(st: State) {
    if |st.stack| == 0 then st.rootValues == 0
    else Top(st.stack).delimiter == '[' || (Top(st.stack).delimiter == '{' && !Top(st.stack).expectKey)
  }

  function Completed(st: State): State
    requires Ready(st)
  {
    CompleteValue(st).state
  }

  // ----- running over the flattening of a value -----

  function Pushed(mode: Mode, st: State, c: char, expectKey: bool, keys: Option<set<string>>): State {
    st.(stack := st.stack + [Container(c, expectKey, keys)])
  }

  lemma PopPushed(mode: Mode, st: State, c: char, expectKey: bool, keys: Option<set<string>>)
    ensures var p := Pushed(mode, st, c, expectKey, keys);
            |p.stack| == |st.stack| + 1 && Top(p.stack) == Container(c, expectKey, keys)
                && p.stack[..|p.stack| - 1] == st.stack
  {
  }

  /** Reading one value either stops at its first fault or ends with the value completed. */
  lemma {:induction false} RunValue(mode: Mode, st: State, v: Json, rest: seq<Token>, broken: bool)
    requires Ready(st)
    ensures Run(mode, st, Flatten(v) + rest, broken) ==
            match Fault(mode, v, |st.stack| + 1)
            case Some(e) => Rejected(e)
            case None => Run(mode, Completed(st), rest, broken)
    decreases v
  {
    var ts, depth := Flatten(v) + rest, |st.stack| + 1;
    match v
    case Leaf(s) =>
      assert ts[1..] == rest;
    case Object(ms) =>
      var keys := if ChecksDepth(mode.checkedDepth, depth) then Some({}) else None;
      var inner := [Delim('}')] + rest;
      assert ts[1..] == FlattenMembers(ms) + inner;
      PopPushed(mode, st, '{', true, keys);
      RunMembers(mode, st, keys, ms, inner, broken);
      var keys' := CollectKeys(keys, ms);
      PopPushed(mode, st, '{', true, keys');
      assert inner[1..] == rest;
    case Array(xs) =>
      var inner := [Delim(']')] + rest;
      assert ts[1..] == FlattenItems(xs) + inner;
      PopPushed(mode, st, '[', false, None);
      if !(depth == 1 && mode.exactRoot) {
        RunItems(mode, st, xs, inner, broken);
      }
      assert inner[1..] == rest;
  }

  function CollectKeys(seen: Option<set<string>>, ms: Members): Option<set<string>>
    decreases ms
  {
    match ms
    case NoMember => seen
    case Member(k, _, more) => CollectKeys(AddKey(seen, k), more)
  }

  lemma {:induction false} RunMembers(
      mode: Mode, st: State, seen: Option<set<string>>, ms: Members, rest: seq<Token>, broken: bool)
    requires Ready(st)
    ensures Run(mode, Pushed(mode, st, '{', true, seen), FlattenMembers(ms) + rest, broken) ==
            match MembersFault(mode, ms, |st.stack| + 1, seen)
            case Some(e) => Rejected(e)
            case None => Run(mode, Pushed(mode, st, '{', true, CollectKeys(seen, ms)), rest, broken)
    decreases ms
  {
    match ms
    case NoMember =>
      assert FlattenMembers(ms) + rest == rest;
    case Member(k, v, more) =>
      var ts, depth := FlattenMembers(ms) + rest, |st.stack| + 1;
      var inner := FlattenMembers(more) + rest;
      assert ts[0] == Value(Text(k)) && ts[1..] == Flatten(v) + inner;
      AdvanceKey(mode, st, seen, k);
      if !(seen.Some? && k in seen.value) && !(depth == 1 && mode.exactRoot && k !in mode.allowedRootKeys) {
        CompleteKeyed(mode, st, AddKey(seen, k));
        RunValue(mode, Pushed(mode, st, '{', false, AddKey(seen, k)), v, inner, broken);
        RunMembers(mode, st, AddKey(seen, k), more, rest, broken);
      }
  }

  /** A key either is refused or leaves the object waiting for its value. */
  lemma {:induction false} AdvanceKey(mode: Mode, st: State, seen: Option<set<string>>, k: string)
    ensures Advance(mode, Pushed(mode, st, '{', true, seen), Value(Text(k))) ==
            if seen.Some? && k in seen.value then Stop(DuplicateKey)
            else if |st.stack| + 1 == 1 && mode.exactRoot && k !in mode.allowedRootKeys then Stop(UnexpectedKey(k))
            else Next(Pushed(mode, st, '{', false, AddKey(seen, k)))
  {
    PopPushed(mode, st, '{', true, seen);
  }

  /** After the value the object waits for its next key. */
  lemma {:induction false} CompleteKeyed(mode: Mode, st: State, keys: Option<set<string>>)
    ensures Ready(Pushed(mode, st, '{', false, keys))
            && Completed(Pushed(mode, st, '{', false, keys)) == Pushed(mode, st, '{', true, keys)
  {
    PopPushed(mode, st, '{', false, keys);
  }

  lemma {:induction false} RunItems(mode: Mode, st: State, xs: Items, rest: seq<Token>, broken: bool)
    requires Ready(st)
    ensures Run(mode, Pushed(mode, st, '[', false, None), FlattenItems(xs) + rest, broken) ==
            match ItemsFault(mode, xs, |st.stack| + 1)
            case Some(e) => Rejected(e)
            case None => Run(mode, Pushed(mode, st, '[', false, None), rest, broken)
    decreases xs
  {
    match xs
    case NoItem =>
      assert FlattenItems(xs) + rest == rest;
    case Item(v, more) =>
      var inner := FlattenItems(more) + rest;
      assert FlattenItems(xs) + rest == Flatten(v) + inner;
      RunValue(mode, Pushed(mode, st, '[', false, None), v, inner, broken);
      RunItems(mode, st, more, rest, broken);
  }

  // ----- what does not parse is rejected -----

  /** Where a value is due and none can be read, the machine ends in a rejection. */
  lemma {:induction false} NoValueRejected(mode: Mode, st: State, ts: seq<Token>, broken: bool)
    requires Ready(st)
    requires ParseValue(ts).None?
    requires |st.stack| > 0 && Top(st.stack).delimiter == '[' ==> !StartsClosing(ts)
    ensures Run(mode, st, ts, broken).Rejected?
    decreases |ts|, 0
  {
    if |ts| > 0 && Advance(mode, st, ts[0]).Next? {
      var keys := if ChecksDepth(mode.checkedDepth, |st.stack| + 1) then Some({}) else None;
      if ts[0] == Delim('{') {
        MembersNotClosedRejected(mode, st, keys, ts[1..], broken);
      } else {
        assert ts[0] == Delim('[');
        ItemsNotClosedRejected(mode, st, ts[1..], broken);
      }
    }
  }

  lemma {:induction false} MembersNotClosedRejected(
      mode: Mode, st: State, seen: Option<set<string>>, ts: seq<Token>, broken: bool)
    requires Ready(st)
    requires match ParseMembers(ts) case None => true case Some((_, rest)) => !(|rest| > 0 && rest[0] == Delim('}'))
    ensures Run(mode, Pushed(mode, st, '{', true, seen), ts, broken).Rejected?
    decreases |ts|, 1
  {
    var open := Pushed(mode, st, '{', true, seen);
    PopPushed(mode, st, '{', true, seen);
    if StartsMember(ts) && Advance(mode, open, ts[0]).Next? {
      var k := ts[0].scalar.text;
      var keyed := Pushed(mode, st, '{', false, AddKey(seen, k));
      assert Advance(mode, open, ts[0]).state.stack == keyed.stack;
      if ParseValue(ts[1..]).None? {
        NoValueRejected(mode, keyed, ts[1..], broken);
      } else {
        var (v, rest) := ParseValue(ts[1..]).value;
        ParseSound(ts[1..]);
        RunValue(mode, keyed, v, rest, broken);
        assert Completed(keyed).stack == Pushed(mode, st, '{', true, AddKey(seen, k)).stack;
        MembersNotClosedRejected(mode, st, AddKey(seen, k), rest, broken);
      }
    }
  }

  lemma {:induction false} ItemsNotClosedRejected(mode: Mode, st: State, ts: seq<Token>, broken: bool)
    requires Ready(st)
    requires match ParseItems(ts) case None => true case Some((_, rest)) => !(|rest| > 0 && rest[0] == Delim(']'))
    ensures Run(mode, Pushed(mode, st, '[', false, None), ts, broken).Rejected?
    decreases |ts|, 1
  {
    var open := Pushed(mode, st, '[', false, None);
    PopPushed(mode, st, '[', false, None);
    if |ts| > 0 && !StartsClosing(ts) {
      if ParseValue(ts).None? {
        NoValueRejected(mode, open, ts, broken);
      } else {
        var (v, rest) := ParseValue(ts).value;
        ParseSound(ts);
        RunValue(mode, open, v, rest, broken);
        ItemsNotClosedRejected(mode, st, rest, broken);
      }
    }
  }

  // ----- the theorem -----

  ghost predicate IsAdmissible(mode: Mode, ts: seq<Token>) {
    exists v :: ts == Flatten(v) && Admissible(mode, v)
  }

  /** The machine accepts exactly the flattenings of admissible values. */
  lemma AcceptedIff(mode: Mode, ts: seq<Token>, broken: bool)
    ensures Run(mode, START, ts, broken) == Accepted <==> !broken && IsAdmissible(mode, ts)
  {
    forall w | ts == Flatten(w)
      ensures ParseValue(ts) == Some((w, []))
    {
      ParseWholeFlatten(w);
    }
    if ParseValue(ts).None? {
      NoValueRejected(mode, START, ts, broken);
    } else {
      var (v, rest) := ParseValue(ts).value;
      ParseSound(ts);
      RunValue(mode, START, v, rest, broken);
      NoFaultIffAdmissible(mode, v);
      if rest == [] {
        assert ts == Flatten(v);
      }
    }
  }

  /** The loop of `validateObjectKeys`. */
  method ValidateObjectKeys(source: Source, mode: Mode) returns (r: Outcome)
    ensures r == Run(mode, START, source.tokens, source.broken)
    ensures r == Accepted <==> !source.broken && IsAdmissible(mode, source.tokens)
  {
    AcceptedIff(mode, source.tokens, source.broken);
    var stack: seq<Container> := [];
    var rootValues: nat := 0;
    var i := 0;
    while i < |source.tokens|
      invariant 0 <= i <= |source.tokens|
      invariant Run(mode, State(stack, rootValues), source.tokens[i..], source.broken)
             == Run(mode, START, source.tokens, source.broken)
    {
      var token := source.tokens[i];
      ghost var before := State(stack, rootValues);
      assert source.tokens[i..][0] == token && source.tokens[i..][1..] == source.tokens[i + 1..];
      i := i + 1;
      if token.Delim? {
        if token.c == '{' || token.c == '[' {
          if |stack| > 0 {
            if Top(stack).delimiter == '{' && Top(stack).expectKey {
              return Rejected(KeyNotString);
            }
          } else {
            if rootValues != 0 {
              return Rejected(MultipleRoots);
            }
            if mode.exactRoot && token.c != '{' {
              return Rejected(RootNotObject);
            }
          }
          var entry := Container(token.c, token.c == '{', None);
          var depth := |stack| + 1;
          if token.c == '{' && (mode.checkedDepth == 0 || depth <= mode.checkedDepth) {
            entry := entry.(keys := Some({}));
          }
          stack := stack + [entry];
        } else if token.c == '}' || token.c == ']' {
          if |stack| == 0 || !Matching(Top(stack).delimiter, token.c) {
            return Rejected(DelimitersDoNotMatch);
          }
          var current := Top(stack);
          if current.delimiter == '{' && !current.expectKey {
            return Rejected(KeyHasNoValue);
          }
          stack := stack[..|stack| - 1];
          var failed: Option<Error>;
          failed, stack, rootValues := CompleteOne(stack, rootValues);
          if failed.Some? {
            return Rejected(failed.value);
          }
        } else {
          return Rejected(UnexpectedDelimiter);
        }
        assert Advance(mode, before, token) == Next(State(stack, rootValues));
        continue;
      }
      if |stack| > 0 {
        var current := Top(stack);
        if current.delimiter == '{' && current.expectKey {
          if !token.scalar.Text? {
            return Rejected(KeyNotString);
          }
          var key := token.scalar.text;
          if current.keys.Some? {
            if key in current.keys.value {
              return Rejected(DuplicateKey);
            }
            current := current.(keys := Some(current.keys.value + {key}));
          }
          if |stack| == 1 && mode.exactRoot && key !in mode.allowedRootKeys {
            return Rejected(UnexpectedKey(key));
          }
          stack := stack[|stack| - 1 := current.(expectKey := false)];
          assert Advance(mode, before, token) == Next(State(stack, rootValues));
          continue;
        }
      }
      if |stack| == 0 && mode.exactRoot {
        return Rejected(RootNotObject);
      }
      var failed: Option<Error>;
      failed, stack, rootValues := CompleteOne(stack, rootValues);
      if failed.Some? {
        return Rejected(failed.value);
      }
    }
    assert source.tokens[i..] == [];
    if source.broken {
      return Rejected(DecodeFailed);
    }
    if |stack| != 0 {
      return Rejected(NotClosed);
    }
    if rootValues != 1 {
      return Rejected(NotExactlyOneValue);
    }
    return Accepted;
  }

  /** The closure `completeValue`, with the variables it captures passed in and out. */
  method CompleteOne(stack: seq<Container>, rootValues: nat)
    returns (failed: Option<Error>, stack': seq<Container>, rootValues': nat)
    ensures match CompleteValue(State(stack, rootValues))
            case Stop(e) => failed == Some(e)
            case Next(st) => failed == None && stack' == st.stack && rootValues' == st.rootValues
  {
    stack', rootValues' := stack, rootValues;
    if |stack| == 0 {
      rootValues' := rootValues + 1;
      if rootValues' > 1 {
        return Some(MultipleRoots), stack', rootValues';
      }
      return None, stack', rootValues';
    }
    var parent := Top(stack);
    if parent.delimiter == '{' {
      if parent.expectKey {
        return Some(ValueWithoutKey), stack', rootValues';
      }
      stack' := stack[|stack| - 1 := parent.(expectKey := true)];
    }
    return None, stack', rootValues';
  }

  ghost predicate IsExactObject(checkedDepth: int, required: seq<string>, ts: seq<Token>) {
    exists ms :: ts == Flatten(Object(ms)) && UniqueKeys(Object(ms), 1, checkedDepth)
        && Keys(ms) == set k | k in required
  }

  /** Accepts one object whose root keys are exactly the required ones. */
  method ValidateExactRootObjectRequired(source: Source, checkedDepth: int, required: seq<string>) returns (r: Outcome)
    ensures r == Accepted <==> !source.broken && IsExactObject(checkedDepth, required, source.tokens)
  {
    var mode := Mode(checkedDepth, required, true);
    r := ValidateObjectKeys(source, mode);
    ghost var ts := source.tokens;
    forall v | ts == Flatten(v)
      ensures ParseValue(ts) == Some((v, []))
    {
      ParseWholeFlatten(v);
    }
    if r.Rejected? {
      return;
    }
    var root := Keys(ParseValue(source.tokens).value.0.members);
    for i := 0 to |required|
      invariant r == Accepted
      invariant forall j :: 0 <= j < i ==> required[j] in root
    {
      if required[i] !in root {
        return Rejected(MissingKey(required[i]));
      }
    }
    ghost var v :| ts == Flatten(v) && Admissible(mode, v);
    assert Keys(v.members) == set k | k in required;
  }
}
