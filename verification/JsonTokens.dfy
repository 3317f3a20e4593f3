/** JSON values as trees, their token streams, and the grammar that connects the two. */
module JsonTokens {

  import opened Options
  import opened Ordering

  /** A string, or a number, boolean or null kept by its text. */
  datatype Scalar = Text(text: string) | Literal(text: string)

  /** What the decoder hands out: a delimiter or a scalar. */
  datatype Token = Delim(c: char) | Value(scalar: Scalar)

  /** A token stream: the decoder hands out `tokens`, then end of input, or an error when `broken`. */
  datatype Source = Source(tokens: seq<Token>, broken: bool)

  datatype Json = Leaf(scalar: Scalar) | Object(members: Members) | Array(items: Items)
  datatype Members = NoMember | Member(key: string, value: Json, more: Members)
  datatype Items = NoItem | Item(value: Json, more: Items)

  function Flatten(v: Json): seq<Token> {
    match v
    case Leaf(s) => [Value(s)]
    case Object(ms) => [Delim('{')] + FlattenMembers(ms) + [Delim('}')]
    case Array(xs) => [Delim('[')] + FlattenItems(xs) + [Delim(']')]
  }

  function FlattenMembers(ms: Members): seq<Token> {
    match ms
    case NoMember => []
    case Member(k, v, more) => [Value(Text(k))] + Flatten(v) + FlattenMembers(more)
  }

  function FlattenItems(xs: Items): seq<Token> {
    match xs
    case NoItem => []
    case Item(v, more) => Flatten(v) + FlattenItems(more)
  }

  function Keys(ms: Members): set<string> {
    match ms
    case NoMember => {}
    case Member(k, _, more) => {k} + Keys(more)
  }

  // ----- the grammar, read from left to right -----

  predicate StartsMember(ts: seq<Token>) {
    |ts| > 0 && ts[0].Value? && ts[0].scalar.Text?
  }

  predicate StartsClosing(ts: seq<Token>) {
    |ts| > 0 && (ts[0] == Delim('}') || ts[0] == Delim(']'))
  }

  /** The one value at the front of `ts`, and what follows it. */
  function ParseValue(ts: seq<Token>): (r: Option<(Json, seq<Token>)>)
    ensures r.Some? ==> |r.value.1| < |ts|
    decreases |ts|, 0
  {
    if |ts| == 0 then None
    else if ts[0].Value? then Some((Leaf(ts[0].scalar), ts[1..]))
    else if ts[0].c == '{' then
      match ParseMembers(ts[1..])
      case None => None
      case Some((ms, rest)) => if |rest| > 0 && rest[0] == Delim('}') then Some((Object(ms), rest[1..])) else None
    else if ts[0].c == '[' then
      match ParseItems(ts[1..])
      case None => None
      case Some((xs, rest)) => if |rest| > 0 && rest[0] == Delim(']') then Some((Array(xs), rest[1..])) else None
    else None
  }

  function ParseMembers(ts: seq<Token>): (r: Option<(Members, seq<Token>)>)
    ensures r.Some? ==> |r.value.1| <= |ts| && !StartsMember(r.value.1)
    decreases |ts|, 1
  {
    if !StartsMember(ts) then Some((NoMember, ts))
    else
      match ParseValue(ts[1..])
      case None => None
      case Some((v, rest)) =>
        match ParseMembers(rest)
        case None => None
        case Some((more, rest')) => Some((Member(ts[0].scalar.text, v, more), rest'))
  }

  function ParseItems(ts: seq<Token>): (r: Option<(Items, seq<Token>)>)
    ensures r.Some? ==> |r.value.1| <= |ts| && (|r.value.1| == 0 || StartsClosing(r.value.1))
    decreases |ts|, 1
  {
    if |ts| == 0 || StartsClosing(ts) then Some((NoItem, ts))
    else
      match ParseValue(ts)
      case None => None
      case Some((v, rest)) =>
        match ParseItems(rest)
        case None => None
        case Some((more, rest')) => Some((Item(v, more), rest'))
  }

  // ----- reading back what was flattened -----

  lemma {:induction false} ParseFlatten(v: Json, rest: seq<Token>)
    ensures ParseValue(Flatten(v) + rest) == Some((v, rest))
    decreases v
  {
    match v
    case Leaf(s) =>
      assert (Flatten(v) + rest)[1..] == rest;
    case Object(ms) =>
      var tail := [Delim('}')] + rest;
      ParseFlattenMembers(ms, tail);
      assert (Flatten(v) + rest)[1..] == FlattenMembers(ms) + tail;
      assert tail[1..] == rest;
    case Array(xs) =>
      var tail := [Delim(']')] + rest;
      ParseFlattenItems(xs, tail);
      assert (Flatten(v) + rest)[1..] == FlattenItems(xs) + tail;
      assert tail[1..] == rest;
  }

  lemma {:induction false} ParseFlattenMembers(ms: Members, rest: seq<Token>)
    requires !StartsMember(rest)
    ensures ParseMembers(FlattenMembers(ms) + rest) == Some((ms, rest))
    decreases ms
  {
    match ms
    case NoMember =>
      assert FlattenMembers(ms) + rest == rest;
    case Member(k, v, more) =>
      var ts := FlattenMembers(ms) + rest;
      assert ts[1..] == Flatten(v) + (FlattenMembers(more) + rest);
      ParseFlatten(v, FlattenMembers(more) + rest);
      ParseFlattenMembers(more, rest);
  }

  lemma FlattenStart(v: Json)
    ensures |Flatten(v)| > 0 && !StartsClosing(Flatten(v))
  {
  }

  lemma {:induction false} ParseFlattenItems(xs: Items, rest: seq<Token>)
    requires StartsClosing(rest)
    ensures ParseItems(FlattenItems(xs) + rest) == Some((xs, rest))
    decreases xs
  {
    match xs
    case NoItem =>
      assert FlattenItems(xs) + rest == rest;
    case Item(v, more) =>
      var ts := FlattenItems(xs) + rest;
      assert ts == Flatten(v) + (FlattenItems(more) + rest);
      FlattenStart(v);
      ParseFlatten(v, FlattenItems(more) + rest);
      ParseFlattenItems(more, rest);
  }

  lemma {:induction false} ParseSound(ts: seq<Token>)
    requires ParseValue(ts).Some?
    ensures ts == Flatten(ParseValue(ts).value.0) + ParseValue(ts).value.1
    decreases |ts|, 2
  {
    assert ts == [ts[0]] + ts[1..];
    if ts[0] == Delim('{') {
      ParseObjectSound(ts);
    } else if ts[0] == Delim('[') {
      ParseArraySound(ts);
    }
  }

  lemma Rewrap(ts: seq<Token>, open: seq<Token>, inner: seq<Token>, close: seq<Token>, rest: seq<Token>)
    requires |open| == |close| == 1 && ts != [] && rest != []
    requires ts[0] == open[0] && ts[1..] == inner + rest && rest[0] == close[0]
    ensures ts == open + inner + close + rest[1..]
  {
  }

  lemma {:induction false} ParseObjectSound(ts: seq<Token>)
    requires ParseValue(ts).Some? && ts[0] == Delim('{')
    ensures ts == Flatten(ParseValue(ts).value.0) + ParseValue(ts).value.1
    decreases |ts|, 1
  {
    ParseMembersSound(ts[1..]);
    var (ms, rest) := ParseMembers(ts[1..]).value;
    assert ParseValue(ts).value == (Object(ms), rest[1..]);
    Rewrap(ts, [Delim('{')], FlattenMembers(ms), [Delim('}')], rest);
  }

  lemma {:induction false} ParseArraySound(ts: seq<Token>)
    requires ParseValue(ts).Some? && ts[0] == Delim('[')
    ensures ts == Flatten(ParseValue(ts).value.0) + ParseValue(ts).value.1
    decreases |ts|, 1
  {
    ParseItemsSound(ts[1..]);
    var (xs, rest) := ParseItems(ts[1..]).value;
    assert ParseValue(ts).value == (Array(xs), rest[1..]);
    Rewrap(ts, [Delim('[')], FlattenItems(xs), [Delim(']')], rest);
  }

  lemma {:induction false} ParseMembersSound(ts: seq<Token>)
    requires ParseMembers(ts).Some?
    ensures ts == FlattenMembers(ParseMembers(ts).value.0) + ParseMembers(ts).value.1
    decreases |ts|, 3
  {
    if StartsMember(ts) {
      assert ts == [ts[0]] + ts[1..];
      ParseSound(ts[1..]);
      var (v, rest) := ParseValue(ts[1..]).value;
      ParseMembersSound(rest);
      var (more, rest') := ParseMembers(rest).value;
      Regroup([ts[0]] + Flatten(v), FlattenMembers(more), rest');
    }
  }

  lemma {:induction false} ParseItemsSound(ts: seq<Token>)
    requires ParseItems(ts).Some?
    ensures ts == FlattenItems(ParseItems(ts).value.0) + ParseItems(ts).value.1
    decreases |ts|, 3
  {
    if |ts| > 0 && !StartsClosing(ts) {
      ParseSound(ts);
      var (v, rest) := ParseValue(ts).value;
      ParseItemsSound(rest);
      var (more, rest') := ParseItems(rest).value;
      Regroup(Flatten(v), FlattenItems(more), rest');
    }
  }

  lemma ParseWholeFlatten(v: Json)
    ensures ParseValue(Flatten(v)) == Some((v, []))
  {
    ParseFlatten(v, []);
    assert Flatten(v) + [] == Flatten(v);
  }

  /** A token stream is the flattening of at most one value. */
  lemma FlattenInjective(v: Json, w: Json)
    requires Flatten(v) == Flatten(w)
    ensures v == w
  {
    ParseWholeFlatten(v);
    ParseWholeFlatten(w);
  }
}
