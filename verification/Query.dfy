// internal/query/builder.go: a command, already cut into tokens, becomes a query.
module Query {
  import opened Wrappers
  import opened ByteCodec
  import opened WalRecord
  import opened Replay

  datatype Query = Query(methodId: Byte, args: seq<Bytes>)

  datatype ParseError = WrongQuery | UnknownMethod | WrongArgsLength

  // "SET", "GET", "DEL"
  const SET_WORD: Bytes := [83, 69, 84]
  const GET_WORD: Bytes := [71, 69, 84]
  const DEL_WORD: Bytes := [68, 69, 76]

  function MethodId(word: Bytes): (id: Option<Byte>)
  {
    if word == SET_WORD then Some(SET)
    else if word == GET_WORD then Some(GET)
    else if word == DEL_WORD then Some(DEL)
    else None
  }

  function MinArgs(id: Byte): (n: nat)
  {
    if id == SET then 2 else 1
  }

  // strings.Join with a blank.
  function Join(words: seq<Bytes>): (s: Bytes)
  {
    if words == [] then [] else if |words| == 1 then words[0] else words[0] + [32] + Join(words[1..])
  }

  function Validate(tokens: seq<Bytes>): (e: Option<ParseError>)
  {
    if |tokens| < 2 then Some(WrongQuery)
    else match MethodId(tokens[0])
         case None => Some(UnknownMethod)
         case Some(id) => if |tokens| - 1 < MinArgs(id) then Some(WrongArgsLength) else None
  }

  function Parse(tokens: seq<Bytes>): (r: Result<Query, ParseError>)
  {
    match Validate(tokens)
    case Some(e) => Err(e)
    case None =>
      var id := MethodId(tokens[0]).value;
      if id == SET then Ok(Query(SET, [tokens[1], Join(tokens[2..])])) else Ok(Query(id, tokens[1..]))
  }

  // What the rest of the program relies on: the rows logged for parsed commands are exactly the replayable ones,
  // SET with its two arguments and DEL with at least one.
  lemma ParsedCommandsReplay(tokens: seq<Bytes>, lsn: U64)
    requires Parse(tokens).Ok?
    ensures var q := Parse(tokens).value;
            && (q.methodId != GET <==> IsWrite(Row(lsn, q.methodId, q.args)))
            && (q.methodId == SET ==> |q.args| == 2)
            && (q.methodId != SET ==> |q.args| >= 1)
            && q.args[0] == tokens[1]
            && (q.methodId == SET ==> q.args[1] == Join(tokens[2..]))
            && (q.methodId != SET ==> q.args == tokens[1..])
  {
  }

  // Which method each word is: "SET" is 0, "GET" is 1 and "DEL" is 2.
  lemma WordDecidesMethod(tokens: seq<Bytes>)
    requires Parse(tokens).Ok?
    ensures Parse(tokens).value.methodId == 0 <==> tokens[0] == [83, 69, 84]
    ensures Parse(tokens).value.methodId == 1 <==> tokens[0] == [71, 69, 84]
    ensures Parse(tokens).value.methodId == 2 <==> tokens[0] == [68, 69, 76]
    ensures Parse(tokens).value.methodId in {0, 1, 2}
  {
  }

  // What is refused, and how: fewer than two words; an unknown method; and, since one argument is always there,
  // a missing argument only for SET.
  lemma ParseErrors(tokens: seq<Bytes>)
    ensures Parse(tokens) == Err(WrongQuery) <==> |tokens| < 2
    ensures Parse(tokens) == Err(UnknownMethod) <==>
              |tokens| >= 2 && tokens[0] !in {[83, 69, 84], [71, 69, 84], [68, 69, 76]}
    ensures Parse(tokens) == Err(WrongArgsLength) <==> |tokens| == 2 && tokens[0] == [83, 69, 84]
  {
  }

  // The words of a value are all kept, in order, with one blank between any two.
  lemma {:induction false} JoinConcat(a: seq<Bytes>, b: seq<Bytes>)
    requires a != [] && b != []
    ensures Join(a + b) == Join(a) + [32] + Join(b)
    ensures |a| == 1 ==> Join(a) == a[0]
  {
    assert (a + b)[1..] == a[1..] + b;
    if |a| > 1 {
      JoinConcat(a[1..], b);
      assert a[0] + [32] + (Join(a[1..]) + [32] + Join(b)) == a[0] + [32] + Join(a[1..]) + [32] + Join(b);
    } else {
      assert a[1..] + b == b;
    }
  }
}
