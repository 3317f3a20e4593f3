/** The recursive-descent payload parser (internal/eventstore/event.go), reading from a token cursor. */
module PayloadJson {
  import opened Options
  import opened Ordering
  import opened JsonTokens
  import StrictJson

  /** The decoded value: objects become maps, so the order of members is gone. */
  datatype Payload = Scalar(scalar: Scalar) | Fields(fields: map<string, Payload>) | List(elements: seq<Payload>)

  datatype ReadError =
    | TokenMissing
    | TooDeep
    | KeyInvalid
    | DuplicateKey
    | ObjectNotClosed
    | ArrayNotClosed
    | UnexpectedDelimiter
    | TrailingData
    | NotAnObject
    | PayloadRequired

  datatype Code = PayloadInvalid | PayloadTooDeep

  /** The stable error code a caller sees. */
  function CodeOf(e: ReadError): Code {
    if e == TooDeep then PayloadTooDeep else PayloadInvalid
  }

  datatype Outcome = Parsed(value: Payload) | Failed(error: ReadError)

  // ----- what the parser computes, on values -----

  /** The decoded form of a value: later members would overwrite earlier ones, which the parser forbids. */
  function Meaning(v: Json): Payload {
    match v
    case Leaf(s) => Scalar(s)
    case Object(ms) => Fields(MembersMeaning(ms, map[]))
    case Array(xs) => List(ItemsMeaning(xs))
  }

  function MembersMeaning(ms: Members, fields: map<string, Payload>): map<string, Payload>
    decreases ms
  {
    match ms
    case NoMember => fields
    case Member(k, v, more) => MembersMeaning(more, fields[k := Meaning(v)])
  }

  function ItemsMeaning(xs: Items): seq<Payload> {
    match xs
    case NoItem => []
    case Item(v, more) => [Meaning(v)] + ItemsMeaning(more)
  }

  /** How many containers are open at the deepest point of a value. */
  function Nesting(v: Json): nat {
    match v
    case Leaf(_) => 0
    case Object(ms) => 1 + MembersNesting(ms)
    case Array(xs) => 1 + ItemsNesting(xs)
  }

  function MembersNesting(ms: Members): nat {
    match ms
    case NoMember => 0
    case Member(_, v, more) => Max(Nesting(v), MembersNesting(more))
  }

  function ItemsNesting(xs: Items): nat {
    match xs
    case NoItem => 0
    case Item(v, more) => Max(Nesting(v), ItemsNesting(more))
  }

  /** The first thing wrong with a value, in reading order. */
  function Fault(v: Json, depth: int, maxDepth: int): Option<ReadError> {
    match v
    case Leaf(_) => None
    case Object(ms) => if depth > maxDepth then Some(TooDeep) else MembersFault(ms, depth, maxDepth, {})
    case Array(xs) => if depth > maxDepth then Some(TooDeep) else ItemsFault(xs, depth, maxDepth)
  }

  function MembersFault(ms: Members, depth: int, maxDepth: int, seen: set<string>): Option<ReadError> {
    match ms
    case NoMember => None
    case Member(k, v, more) =>
      if k in seen then Some(DuplicateKey)
      else
        match Fault(v, depth + 1, maxDepth)
        case Some(e) => Some(e)
        case None => MembersFault(more, depth, maxDepth, seen + {k})
  }

  function ItemsFault(xs: Items, depth: int, maxDepth: int): Option<ReadError> {
    match xs
    case NoItem => None
    case Item(v, more) =>
      match Fault(v, depth + 1, maxDepth)
      case Some(e) => Some(e)
      case None => ItemsFault(more, depth, maxDepth)
  }

  // ----- the parser as a function of the remaining tokens -----

  datatype ReadResult<T> = Read(value: T, rest: seq<Token>) | Stopped(error: ReadError)

  function ReadValue(ts: seq<Token>, depth: int, maxDepth: int): (r: ReadResult<Payload>)
    ensures r.Read? ==> |r.rest| < |ts|
    decreases |ts|, 0
  {
    if |ts| == 0 then Stopped(TokenMissing)
    else if ts[0].Value? then Read(Scalar(ts[0].scalar), ts[1..])
    else if depth > maxDepth then Stopped(TooDeep)
    else if ts[0].c == '{' then
      match ReadFields(ts[1..], depth, maxDepth, map[])
      case Stopped(e) => Stopped(e)
      case Read(fields, rest) =>
        if |rest| > 0 && rest[0] == Delim('}') then Read(Fields(fields), rest[1..]) else Stopped(ObjectNotClosed)
    else if ts[0].c == '[' then
      match ReadElements(ts[1..], depth, maxDepth, [])
      case Stopped(e) => Stopped(e)
      case Read(elements, rest) =>
        if |rest| > 0 && rest[0] == Delim(']') then Read(List(elements), rest[1..]) else Stopped(ArrayNotClosed)
    else Stopped(UnexpectedDelimiter)
  }

  /** `decoder.More`: another member or element follows. */
  predicate More(ts: seq<Token>) {
    |ts| > 0 && !StartsClosing(ts)
  }

  function ReadFields(
      ts: seq<Token>, depth: int, maxDepth: int, fields: map<string, Payload>): (r: ReadResult<map<string, Payload>>)
    ensures r.Read? ==> |r.rest| <= |ts|
    decreases |ts|, 1
  {
    if !More(ts) then Read(fields, ts)
    else if !StartsMember(ts) then Stopped(KeyInvalid)
    else if ts[0].scalar.text in fields then Stopped(DuplicateKey)
    else
      match ReadValue(ts[1..], depth + 1, maxDepth)
      case Stopped(e) => Stopped(e)
      case Read(value, rest) => ReadFields(rest, depth, maxDepth, fields[ts[0].scalar.text := value])
  }

  function ReadElements(
      ts: seq<Token>, depth: int, maxDepth: int, elements: seq<Payload>): (r: ReadResult<seq<Payload>>)
    ensures r.Read? ==> |r.rest| <= |ts|
    decreases |ts|, 1
  {
    if !More(ts) then Read(elements, ts)
    else
      match ReadValue(ts, depth + 1, maxDepth)
      case Stopped(e) => Stopped(e)
      case Read(value, rest) => ReadElements(rest, depth, maxDepth, elements + [value])
  }

  // ----- reading inverts flattening -----

  /** On a flattened value the parser stops at the first fault, or returns the meaning and the rest. */
  lemma {:induction false} ReadFlatten(v: Json, rest: seq<Token>, depth: int, maxDepth: int)
    ensures ReadValue(Flatten(v) + rest, depth, maxDepth) ==
            match Fault(v, depth, maxDepth)
            case Some(e) => Stopped(e)
            case None => Read(Meaning(v), rest)
    decreases v
  {
    var ts := Flatten(v) + rest;
    match v
    case Leaf(s) =>
      assert ts[1..] == rest;
    case Object(ms) =>
      var inner := [Delim('}')] + rest;
      assert ts[1..] == FlattenMembers(ms) + inner && inner[1..] == rest;
      var none: map<string, Payload> := map[];
      assert none.Keys == {};
      ReadFlattenMembers(ms, inner, depth, maxDepth, none);
    case Array(xs) =>
      var inner := [Delim(']')] + rest;
      assert ts[1..] == FlattenItems(xs) + inner && inner[1..] == rest;
      ReadFlattenItems(xs, inner, depth, maxDepth, []);
      assert [] + ItemsMeaning(xs) == ItemsMeaning(xs);
  }

  lemma {:induction false} ReadFlattenMembers(
      ms: Members, rest: seq<Token>, depth: int, maxDepth: int, fields: map<string, Payload>)
    requires StartsClosing(rest)
    ensures ReadFields(FlattenMembers(ms) + rest, depth, maxDepth, fields) ==
            match MembersFault(ms, depth, maxDepth, fields.Keys)
            case Some(e) => Stopped(e)
            case None => Read(MembersMeaning(ms, fields), rest)
    decreases ms
  {
    match ms
    case NoMember =>
      assert FlattenMembers(ms) + rest == rest;
    case Member(k, v, more) =>
      var ts := FlattenMembers(ms) + rest;
      assert ts[1..] == Flatten(v) + (FlattenMembers(more) + rest);
      ReadFlatten(v, FlattenMembers(more) + rest, depth + 1, maxDepth);
      assert fields[k := Meaning(v)].Keys == fields.Keys + {k};
      ReadFlattenMembers(more, rest, depth, maxDepth, fields[k := Meaning(v)]);
  }

  lemma {:induction false} ReadFlattenItems(
      xs: Items, rest: seq<Token>, depth: int, maxDepth: int, elements: seq<Payload>)
    requires StartsClosing(rest)
    ensures ReadElements(FlattenItems(xs) + rest, depth, maxDepth, elements) ==
            match ItemsFault(xs, depth, maxDepth)
            case Some(e) => Stopped(e)
            case None => Read(elements + ItemsMeaning(xs), rest)
    decreases xs
  {
    match xs
    case NoItem =>
      assert FlattenItems(xs) + rest == rest;
      assert elements + ItemsMeaning(xs) == elements;
    case Item(v, more) =>
      var tail := FlattenItems(more) + rest;
      assert FlattenItems(xs) + rest == Flatten(v) + tail;
      FlattenStart(v);
      ReadFlatten(v, tail, depth + 1, maxDepth);
      ReadFlattenItems(more, rest, depth, maxDepth, elements + [Meaning(v)]);
      assert elements + [Meaning(v)] + ItemsMeaning(more) == elements + ItemsMeaning(xs);
  }

  /** A value has no fault exactly when no object repeats a key and the containers nest within the limit. */
  lemma {:induction false} NoFaultIff(v: Json, depth: int, maxDepth: int)
    ensures Fault(v, depth, maxDepth).None? <==>
            StrictJson.UniqueKeys(v, 1, 0) && (v.Leaf? || depth - 1 + Nesting(v) <= maxDepth)
    decreases v
  {
    match v
    case Leaf(_) =>
    case Object(ms) =>
      MembersNoFaultIff(ms, depth, maxDepth, {});
      UniqueAtAnyDepth(ms, 2);
    case Array(xs) =>
      ItemsNoFaultIff(xs, depth, maxDepth);
  }

  lemma {:induction false} MembersNoFaultIff(ms: Members, depth: int, maxDepth: int, seen: set<string>)
    ensures MembersFault(ms, depth, maxDepth, seen).None? <==>
            && StrictJson.DistinctKeys(ms) && Keys(ms) !! seen
            && StrictJson.UniqueInMembers(ms, 2, 0)
            && (MembersNesting(ms) == 0 || depth + MembersNesting(ms) <= maxDepth)
    decreases ms
  {
    match ms
    case NoMember =>
    case Member(k, v, more) =>
      NoFaultIff(v, depth + 1, maxDepth);
      UniqueAnywhere(v, 1, 2);
      MembersNoFaultIff(more, depth, maxDepth, seen + {k});
  }

  lemma {:induction false} ItemsNoFaultIff(xs: Items, depth: int, maxDepth: int)
    ensures ItemsFault(xs, depth, maxDepth).None? <==>
            && StrictJson.UniqueInItems(xs, 2, 0)
            && (ItemsNesting(xs) == 0 || depth + ItemsNesting(xs) <= maxDepth)
    decreases xs
  {
    match xs
    case NoItem =>
    case Item(v, more) =>
      NoFaultIff(v, depth + 1, maxDepth);
      UniqueAnywhere(v, 1, 2);
      ItemsNoFaultIff(more, depth, maxDepth);
  }

  /** When every depth is checked, the depth a value sits at does not matter. */
  lemma {:induction false} UniqueAnywhere(v: Json, depth: int, depth': int)
    ensures StrictJson.UniqueKeys(v, depth, 0) <==> StrictJson.UniqueKeys(v, depth', 0)
    decreases v
  {
    match v
    case Leaf(_) =>
    case Object(ms) => UniqueMembersAnywhere(ms, depth + 1, depth' + 1);
    case Array(xs) => UniqueItemsAnywhere(xs, depth + 1, depth' + 1);
  }

  lemma {:induction false} UniqueMembersAnywhere(ms: Members, depth: int, depth': int)
    ensures StrictJson.UniqueInMembers(ms, depth, 0) <==> StrictJson.UniqueInMembers(ms, depth', 0)
    decreases ms
  {
    match ms
    case NoMember =>
    case Member(_, v, more) =>
      UniqueAnywhere(v, depth, depth');
      UniqueMembersAnywhere(more, depth, depth');
  }

  lemma {:induction false} UniqueItemsAnywhere(xs: Items, depth: int, depth': int)
    ensures StrictJson.UniqueInItems(xs, depth, 0) <==> StrictJson.UniqueInItems(xs, depth', 0)
    decreases xs
  {
    match xs
    case NoItem =>
    case Item(v, more) =>
      UniqueAnywhere(v, depth, depth');
      UniqueItemsAnywhere(more, depth, depth');
  }

  lemma UniqueAtAnyDepth(ms: Members, depth: int)
    ensures StrictJson.UniqueKeys(Object(ms), 1, 0) <==>
              StrictJson.DistinctKeys(ms) && StrictJson.UniqueInMembers(ms, depth, 0)
  {
    UniqueMembersAnywhere(ms, 2, depth);
  }

  /** `parseJSONValue` inverts flattening exactly on values without repeated keys that nest within the limit. */
  lemma ReadInvertsFlattenIff(v: Json, maxDepth: nat)
    ensures ReadValue(Flatten(v), 1, maxDepth) == Read(Meaning(v), []) <==>
            StrictJson.UniqueKeys(v, 1, 0) && Nesting(v) <= maxDepth
    ensures !(StrictJson.UniqueKeys(v, 1, 0) && Nesting(v) <= maxDepth) ==> ReadValue(Flatten(v), 1, maxDepth).Stopped?
  {
    ReadFlatten(v, [], 1, maxDepth);
    assert Flatten(v) + [] == Flatten(v);
    NoFaultIff(v, 1, maxDepth);
  }

  /** Without repeated keys, nesting is the only thing to stop at. */
  lemma TooDeepIff(v: Json, maxDepth: nat)
    requires StrictJson.UniqueKeys(v, 1, 0)
    ensures Flatten(v) != []
    ensures ReadValue(Flatten(v), 1, maxDepth) ==
              if Nesting(v) <= maxDepth then Read(Meaning(v), []) else Stopped(TooDeep)
  {
    ReadFlatten(v, [], 1, maxDepth);
    assert Flatten(v) + [] == Flatten(v);
    NoFaultIff(v, 1, maxDepth);
    NoDuplicateFault(v, 1, maxDepth);
  }

  // ----- after strict validation the duplicate branch is dead -----

  lemma {:induction false} NoDuplicateFault(v: Json, depth: int, maxDepth: int)
    requires StrictJson.UniqueKeys(v, 1, 0)
    ensures Fault(v, depth, maxDepth) == None || Fault(v, depth, maxDepth) == Some(TooDeep)
    decreases v
  {
    match v
    case Leaf(_) =>
    case Object(ms) => NoDuplicateMemberFault(ms, depth, maxDepth, {});
    case Array(xs) => NoDuplicateItemFault(xs, depth, maxDepth);
  }

  lemma {:induction false} NoDuplicateMemberFault(ms: Members, depth: int, maxDepth: int, seen: set<string>)
    requires StrictJson.DistinctKeys(ms) && Keys(ms) !! seen && StrictJson.UniqueInMembers(ms, 2, 0)
    ensures MembersFault(ms, depth, maxDepth, seen) == None || MembersFault(ms, depth, maxDepth, seen) == Some(TooDeep)
    decreases ms
  {
    match ms
    case NoMember =>
    case Member(k, v, more) =>
      UniqueAnywhere(v, 2, 1);
      NoDuplicateFault(v, depth + 1, maxDepth);
      NoDuplicateMemberFault(more, depth, maxDepth, seen + {k});
  }

  lemma {:induction false} NoDuplicateItemFault(xs: Items, depth: int, maxDepth: int)
    requires StrictJson.UniqueInItems(xs, 2, 0)
    ensures ItemsFault(xs, depth, maxDepth) == None || ItemsFault(xs, depth, maxDepth) == Some(TooDeep)
    decreases xs
  {
    match xs
    case NoItem =>
    case Item(v, more) =>
      UniqueAnywhere(v, 2, 1);
      NoDuplicateFault(v, depth + 1, maxDepth);
      NoDuplicateItemFault(more, depth, maxDepth);
  }

  /** `payload` is the value of some member. */
  predicate HasMember(ms: Members, payload: Json) {
    match ms
    case NoMember => false
    case Member(_, v, more) => v == payload || HasMember(more, payload)
  }

  lemma {:induction false} MemberIsUnique(ms: Members, payload: Json)
    requires StrictJson.UniqueInMembers(ms, 2, 0) && HasMember(ms, payload)
    ensures StrictJson.UniqueKeys(payload, 1, 0)
    decreases ms
  {
    if ms.value == payload {
      UniqueAnywhere(payload, 2, 1);
    } else {
      MemberIsUnique(ms.more, payload);
    }
  }

  /** An envelope that strict validation accepted at every depth never makes the parser see a duplicate key. */
  lemma ValidatedPayloadHasNoDuplicate(
      mode: StrictJson.Mode, envelope: Members, broken: bool, payload: Json, depth: int, maxDepth: int)
    requires mode.checkedDepth == 0
    requires StrictJson.Run(mode, StrictJson.START, Flatten(Object(envelope)), broken) == StrictJson.Accepted
    requires HasMember(envelope, payload)
    ensures ReadValue(Flatten(payload), depth, maxDepth) != Stopped(DuplicateKey)
  {
    StrictJson.AcceptedIff(mode, Flatten(Object(envelope)), broken);
    var v :| Flatten(Object(envelope)) == Flatten(v) && StrictJson.Admissible(mode, v);
    FlattenInjective(Object(envelope), v);
    MemberIsUnique(envelope, payload);
    NoDuplicateFault(payload, depth, maxDepth);
    ReadFlatten(payload, [], depth, maxDepth);
    assert Flatten(payload) + [] == Flatten(payload);
  }

  // ----- the parser itself -----

  class Decoder {
    const source: Source
    var pos: nat

    ghost predicate Valid()
      reads this
    {
      pos <= |source.tokens|
    }

    ghost function Remaining(): seq<Token>
      reads this
      requires Valid()
    {
      source.tokens[pos..]
    }

    constructor (source: Source)
      ensures this.source == source && pos == 0 && Valid()
    {
      this.source := source;
      pos := 0;
    }

    /** The next token; `None` at the end of the tokens, whether that is end of input or a decoding error. */
    method Token() returns (token: Option<Token>)
      requires Valid()
      modifies this
      ensures Valid()
      ensures old(Remaining()) == [] ==> token == None && pos == old(pos)
      ensures old(Remaining()) != [] ==> token == Some(old(Remaining())[0]) && pos == old(pos) + 1
    {
      if pos == |source.tokens| {
        return None;
      }
      token := Some(source.tokens[pos]);
      pos := pos + 1;
    }

    method HasMore() returns (more: bool)
      requires Valid()
      ensures more == More(Remaining())
    {
      more := pos < |source.tokens| && source.tokens[pos] != Delim('}') && source.tokens[pos] != Delim(']');
    }

    method ParseValue(depth: int, maxDepth: int) returns (r: Outcome)
      requires Valid()
      modifies this
      ensures Valid() && pos >= old(pos)
      ensures match ReadValue(old(Remaining()), depth, maxDepth)
              case Read(value, rest) => r == Parsed(value) && Remaining() == rest && pos > old(pos)
              case Stopped(e) => r == Failed(e)
      decreases |source.tokens| - pos, 0
    {
      ghost var ts := Remaining();
      var token := Token();
      if token == None {
        return Failed(TokenMissing);
      }
      assert Remaining() == ts[1..];
      if token.value.Value? {
        return Parsed(Scalar(token.value.scalar));
      }
      if depth > maxDepth {
        return Failed(TooDeep);
      }
      if token.value.c == '{' {
        r := ParseObject(depth, maxDepth);
      } else if token.value.c == '[' {
        r := ParseArray(depth, maxDepth);
      } else {
        r := Failed(UnexpectedDelimiter);
      }
    }

    /** The members of an object whose opening brace has been read, and its closing brace. */
    method ParseObject(depth: int, maxDepth: int) returns (r: Outcome)
      requires Valid()
      modifies this
      ensures Valid() && pos >= old(pos)
      ensures match ReadFields(old(Remaining()), depth, maxDepth, map[])
              case Stopped(e) => r == Failed(e)
              case Read(fields, rest) =>
                if |rest| > 0 && rest[0] == Delim('}') then r == Parsed(Fields(fields)) && Remaining() == rest[1..]
                else r == Failed(ObjectNotClosed)
      decreases |source.tokens| - pos, 1
    {
      var decoded: map<string, Payload> := map[];
      var more := HasMore();
      while more
        invariant Valid() && pos >= old(pos)
        invariant more == More(Remaining())
        invariant ReadFields(Remaining(), depth, maxDepth, decoded)
                    == ReadFields(old(Remaining()), depth, maxDepth, map[])
        decreases |source.tokens| - pos
      {
        ghost var ts := Remaining();
        var keyToken := Token();
        if !keyToken.Some? || !keyToken.value.Value? || !keyToken.value.scalar.Text? {
          return Failed(KeyInvalid);
        }
        assert Remaining() == ts[1..];
        var key := keyToken.value.scalar.text;
        if key in decoded {
          return Failed(DuplicateKey);
        }
        var value := ParseValue(depth + 1, maxDepth);
        if value.Failed? {
          return value;
        }
        decoded := decoded[key := value.value];
        more := HasMore();
      }
      ghost var ts := Remaining();
      var closing := Token();
      if closing != Some(Delim('}')) {
        return Failed(ObjectNotClosed);
      }
      assert Remaining() == ts[1..];
      return Parsed(Fields(decoded));
    }

    /** The elements of an array whose opening bracket has been read, and its closing bracket. */
    method ParseArray(depth: int, maxDepth: int) returns (r: Outcome)
      requires Valid()
      modifies this
      ensures Valid() && pos >= old(pos)
      ensures match ReadElements(old(Remaining()), depth, maxDepth, [])
              case Stopped(e) => r == Failed(e)
              case Read(elements, rest) =>
                if |rest| > 0 && rest[0] == Delim(']') then r == Parsed(List(elements)) && Remaining() == rest[1..]
                else r == Failed(ArrayNotClosed)
      decreases |source.tokens| - pos, 1
    {
      var decoded: seq<Payload> := [];
      var more := HasMore();
      while more
        invariant Valid() && pos >= old(pos)
        invariant more == More(Remaining())
        invariant ReadElements(Remaining(), depth, maxDepth, decoded)
                    == ReadElements(old(Remaining()), depth, maxDepth, [])
        decreases |source.tokens| - pos
      {
        var value := ParseValue(depth + 1, maxDepth);
        if value.Failed? {
          return value;
        }
        decoded := decoded + [value.value];
        more := HasMore();
      }
      ghost var ts := Remaining();
      var closing := Token();
      if closing != Some(Delim(']')) {
        return Failed(ArrayNotClosed);
      }
      assert Remaining() == ts[1..];
      return Parsed(List(decoded));
    }
  }

  /** `parsePayload`: one object and nothing after it. An absent payload has no tokens and is not even begun. */
  method ParsePayload(source: Source, maxDepth: nat) returns (r: Outcome)
    ensures r.Parsed? <==>
            && !source.broken
            && exists ms :: source.tokens == Flatten(Object(ms)) && StrictJson.UniqueKeys(Object(ms), 1, 0)
                && Nesting(Object(ms)) <= maxDepth
    ensures forall ms :: r.Parsed? && source.tokens == Flatten(Object(ms)) ==> r.value == Meaning(Object(ms))
    ensures forall v :: !source.broken && source.tokens == Flatten(v) && StrictJson.UniqueKeys(v, 1, 0) ==>
              (r.Failed? && CodeOf(r.error) == PayloadTooDeep <==> Nesting(v) > maxDepth)
  {
    ghost var ts := source.tokens;
    forall v | ts == Flatten(v) && StrictJson.UniqueKeys(v, 1, 0)
      ensures ts != [] && ReadValue(ts, 1, maxDepth) ==
                if Nesting(v) <= maxDepth then Read(Meaning(v), []) else Stopped(TooDeep)
    {
      TooDeepIff(v, maxDepth);
    }
    forall v | ts == Flatten(v)
      ensures ReadValue(ts, 1, maxDepth) == Read(Meaning(v), []) <==>
                StrictJson.UniqueKeys(v, 1, 0) && Nesting(v) <= maxDepth
      ensures ReadValue(ts, 1, maxDepth).Read? ==> StrictJson.UniqueKeys(v, 1, 0) && Nesting(v) <= maxDepth
    {
      ReadInvertsFlattenIff(v, maxDepth);
    }
    if |source.tokens| == 0 && !source.broken {
      return Failed(PayloadRequired);
    }
    var decoder := new Decoder(source);
    assert decoder.Remaining() == ts;
    r := decoder.ParseValue(1, maxDepth);
    if r.Failed? {
      return;
    }
    var atEnd := decoder.pos == |source.tokens| && !source.broken;
    if !atEnd {
      return Failed(TrailingData);
    }
    assert decoder.Remaining() == [];
    ReadOnlyFlattened(ts, 1, maxDepth);
    if !r.value.Fields? {
      return Failed(NotAnObject);
    }
  }

  /** What the parser reads is the flattening of a value. */
  lemma {:induction false} ReadOnlyFlattened(ts: seq<Token>, depth: int, maxDepth: int)
    requires ReadValue(ts, depth, maxDepth).Read?
    ensures exists v :: ts == Flatten(v) + ReadValue(ts, depth, maxDepth).rest
  {
    if JsonTokens.ParseValue(ts).None? {
      ReadImpliesParse(ts, depth, maxDepth);
    }
    ParseSound(ts);
    var (v, rest) := JsonTokens.ParseValue(ts).value;
    ReadFlatten(v, rest, depth, maxDepth);
  }

  /** The grammar reads whatever the parser reads. */
  lemma {:induction false} ReadImpliesParse(ts: seq<Token>, depth: int, maxDepth: int)
    requires ReadValue(ts, depth, maxDepth).Read?
    ensures JsonTokens.ParseValue(ts).Some? && JsonTokens.ParseValue(ts).value.1 == ReadValue(ts, depth, maxDepth).rest
    decreases |ts|, 0
  {
    if ts[0] == Delim('{') {
      FieldsImplyMembers(ts[1..], depth, maxDepth, map[]);
    } else if ts[0] == Delim('[') {
      ElementsImplyItems(ts[1..], depth, maxDepth, []);
    }
  }

  lemma {:induction false} FieldsImplyMembers(ts: seq<Token>, depth: int, maxDepth: int, fields: map<string, Payload>)
    requires ReadFields(ts, depth, maxDepth, fields).Read?
    ensures ParseMembers(ts).Some? && ParseMembers(ts).value.1 == ReadFields(ts, depth, maxDepth, fields).rest
    decreases |ts|, 1
  {
    if More(ts) {
      ReadImpliesParse(ts[1..], depth + 1, maxDepth);
      var value, rest := ReadValue(ts[1..], depth + 1, maxDepth).value, ReadValue(ts[1..], depth + 1, maxDepth).rest;
      FieldsImplyMembers(rest, depth, maxDepth, fields[ts[0].scalar.text := value]);
    }
  }

  lemma {:induction false} ElementsImplyItems(ts: seq<Token>, depth: int, maxDepth: int, elements: seq<Payload>)
    requires ReadElements(ts, depth, maxDepth, elements).Read?
    ensures ParseItems(ts).Some? && ParseItems(ts).value.1 == ReadElements(ts, depth, maxDepth, elements).rest
    decreases |ts|, 1
  {
    if More(ts) {
      ReadImpliesParse(ts, depth + 1, maxDepth);
      var value, rest := ReadValue(ts, depth + 1, maxDepth).value, ReadValue(ts, depth + 1, maxDepth).rest;
      ElementsImplyItems(rest, depth, maxDepth, elements + [value]);
    }
  }
}
