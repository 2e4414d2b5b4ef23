/**
 The UAL line parser of `src/ual.rs`: a line is split on whitespace; the
 first three tokens are the statement's type, target and destination, and
 every later token holding an `=` becomes a `(key, value)` parameter.
 */
module UalParser {
  import opened Results
  import opened Strings

  /** Error text returned for a line with fewer than three tokens. */
  const TooFewParts: string := "Invalid UAL: Too few parts"

  /**
   A parsed UAL command. `verb` is the Rust field `type_` ("EXEC", "MOV", ...);
   `params` keeps source order and duplicate keys.
   */
  datatype Statement = Statement(
    verb: string,
    target: string,
    destination: string,
    params: seq<(string, string)>)

  /** The token written for one parameter: `key=value`. */
  function PairToken(kv: (string, string)): string {
    kv.0 + "=" + kv.1
  }

  /**
   The `filter_map(split_once('='))` over the trailing tokens: a token with
   an `=` yields its split at the first `=`, any other token is dropped.
   */
  function Params(ts: seq<string>): seq<(string, string)> {
    if |ts| == 0 then []
    else
      match SplitOnce(ts[0], '=')
      case None => Params(ts[1..])
      case Some(kv) => [kv] + Params(ts[1..])
  }

  /**
   Each parameter comes from one token, at most one per token: the token is
   `key=value` and the key holds no `=`.
   */
  lemma {:induction false} ParamsFromTokens(ts: seq<string>)
    ensures |Params(ts)| <= |ts|
    ensures forall i :: 0 <= i < |Params(ts)| ==>
      '=' !in Params(ts)[i].0 && PairToken(Params(ts)[i]) in ts
  {
    if |ts| > 0 {
      SplitOnceSpec(ts[0], '=');
      ParamsFromTokens(ts[1..]);
    }
  }

  /** One token as a parameter: without `=` it contributes nothing. */
  lemma ParamsOfOne(t: string)
    ensures '=' !in t ==> Params([t]) == []
    ensures '=' in t ==> |Params([t])| == 1 && PairToken(Params([t])[0]) == t
  {
    assert [t][1..] == [];
    SplitOnceSpec(t, '=');
  }

  /** Parameters of consecutive token runs are the concatenation, in order. */
  lemma {:induction false} ParamsAppend(a: seq<string>, b: seq<string>)
    ensures Params(a + b) == Params(a) + Params(b)
  {
    if |a| == 0 {
      assert a + b == b;
    } else {
      assert (a + b)[1..] == a[1..] + b;
      ParamsAppend(a[1..], b);
    }
  }

  /** A trailing token without `=` (such as `WITH`) is dropped wherever it sits. */
  lemma BareTokenDropped(a: seq<string>, t: string, b: seq<string>)
    requires '=' !in t
    ensures Params(a + [t] + b) == Params(a + b)
  {
    ParamsAppend(a + [t], b);
    ParamsAppend(a, [t]);
    ParamsOfOne(t);
    ParamsAppend(a, b);
  }

  /** `parse_ual`: fails with "Too few parts" exactly when the line has fewer than three tokens. */
  function Parse(input: string): (r: Result<Statement, string>)
    ensures r.Err? <==> |Tokens(input)| < 3
    ensures r.Err? ==> r.error == TooFewParts
  {
    var parts := Tokens(input);
    if |parts| < 3 then Err(TooFewParts)
    else Ok(Statement(parts[0], parts[1], parts[2], Params(parts[3..])))
  }

  /**
   A parsed statement's type, target and destination are words (non-empty,
   no whitespace); its parameters come from the fourth and later tokens only,
   one at most per token, each keyed by the text before the token's first `=`.
   */
  lemma ParseShape(input: string)
    requires Parse(input).Ok?
    ensures var st := Parse(input).value; var ts := Tokens(input);
      && IsWord(st.verb) && IsWord(st.target) && IsWord(st.destination)
      && |st.params| <= |ts| - 3
      && forall i :: 0 <= i < |st.params| ==>
           '=' !in st.params[i].0 && PairToken(st.params[i]) in ts[3..]
  {
    TokensAreWords(input);
    ParamsFromTokens(Tokens(input)[3..]);
  }

  /**
   For a line of three or more words joined by single spaces, the statement
   holds the first three words and the parameters of the remaining ones only: the first three
   tokens never contribute a parameter, even when they contain `=`.
   */
  lemma ParseWords(ts: seq<string>)
    requires |ts| >= 3
    requires forall i :: 0 <= i < |ts| ==> IsWord(ts[i])
    ensures Parse(JoinSpaced(ts)) == Ok(Statement(ts[0], ts[1], ts[2], Params(ts[3..])))
  {
    TokensOfJoin(ts);
  }

  /**
   The same for any layout of the line: leading whitespace, any non-empty
   whitespace runs between the words (tabs, several spaces) and trailing
   whitespace change nothing in the statement.
   */
  lemma ParseLayout(lead: string, ts: seq<string>, gaps: seq<string>)
    requires Blank(lead) && Separated(ts, gaps)
    requires |ts| >= 3
    ensures Parse(lead + Layout(ts, gaps)) == Ok(Statement(ts[0], ts[1], ts[2], Params(ts[3..])))
  {
    TokensOfLayout(lead, ts, gaps);
  }

  /** With fewer than three words, whatever the layout, the line is refused. */
  lemma ParseTooFewLayout(lead: string, ts: seq<string>, gaps: seq<string>)
    requires Blank(lead) && Separated(ts, gaps)
    requires |ts| < 3
    ensures Parse(lead + Layout(ts, gaps)) == Err(TooFewParts)
  {
    TokensOfLayout(lead, ts, gaps);
  }

  /** Fewer than three words never parse. */
  lemma ParseTooFewWords(ts: seq<string>)
    requires |ts| < 3
    requires forall i :: 0 <= i < |ts| ==> IsWord(ts[i])
    ensures Parse(JoinSpaced(ts)) == Err(TooFewParts)
  {
    TokensOfJoin(ts);
  }

  /** A statement that can be written as a UAL line and parsed back. */
  predicate WellFormed(stmt: Statement) {
    && IsWord(stmt.verb) && IsWord(stmt.target) && IsWord(stmt.destination)
    && forall i :: 0 <= i < |stmt.params| ==>
         '=' !in stmt.params[i].0 && IsWord(PairToken(stmt.params[i]))
  }

  function PairTokens(ps: seq<(string, string)>): (ts: seq<string>)
    ensures |ts| == |ps|
    ensures forall i :: 0 <= i < |ps| ==> ts[i] == PairToken(ps[i])
  {
    if |ps| == 0 then [] else [PairToken(ps[0])] + PairTokens(ps[1..])
  }

  /** The UAL line `<VERB> <TARGET> <DESTINATION> k=v ...` for a statement. */
  function Render(stmt: Statement): string {
    JoinSpaced([stmt.verb, stmt.target, stmt.destination] + PairTokens(stmt.params))
  }

  /** A `key=value` token in front, with no `=` in the key, yields exactly `(key, value)`. */
  lemma ParamsOfPairFirst(kv: (string, string), rest: seq<string>)
    requires '=' !in kv.0
    ensures Params([PairToken(kv)] + rest) == [kv] + Params(rest)
  {
    var ts := [PairToken(kv)] + rest;
    SplitOnceOfJoin(kv.0, '=', kv.1);
    assert ts[0] == kv.0 + ['='] + kv.1;
    assert ts[1..] == rest;
  }

  lemma {:induction false} ParamsOfPairTokens(ps: seq<(string, string)>)
    requires forall i :: 0 <= i < |ps| ==> '=' !in ps[i].0
    ensures Params(PairTokens(ps)) == ps
  {
    if |ps| > 0 {
      assert PairTokens(ps) == [PairToken(ps[0])] + PairTokens(ps[1..]);
      ParamsOfPairFirst(ps[0], PairTokens(ps[1..]));
      ParamsOfPairTokens(ps[1..]);
      assert ps == [ps[0]] + ps[1..];
    }
  }

  /** Every well-formed statement survives rendering and parsing unchanged. */
  lemma ParseRender(stmt: Statement)
    requires WellFormed(stmt)
    ensures Parse(Render(stmt)) == Ok(stmt)
  {
    var ts := [stmt.verb, stmt.target, stmt.destination] + PairTokens(stmt.params);
    ParseWords(ts);
    assert ts[3..] == PairTokens(stmt.params);
    ParamsOfPairTokens(stmt.params);
  }

  /** A bare three-word line parses to a statement without parameters. */
  lemma ParseThreeWords(verb: string, target: string, destination: string)
    requires IsWord(verb) && IsWord(target) && IsWord(destination)
    ensures Parse(JoinSpaced([verb, target, destination]))
         == Ok(Statement(verb, target, destination, []))
  {
    var ts := [verb, target, destination];
    ParseWords(ts);
    assert ts[3..] == [];
  }

  lemma WithIsWord()
    ensures IsWord("WITH") && '=' !in "WITH"
  {
  }

  /**
   The other shape of the repository's sample lines,
   `<VERB> <TARGET> <DESTINATION> WITH <key>=<value>`: one parameter, and the
   bare `WITH` is dropped.
   */
  lemma ParseWithClause(verb: string, target: string, destination: string, kv: string, k: string, v: string)
    requires IsWord(verb) && IsWord(target) && IsWord(destination) && IsWord(kv)
    requires kv == k + "=" + v && '=' !in k
    ensures Parse(JoinSpaced([verb, target, destination, "WITH", kv]))
         == Ok(Statement(verb, target, destination, [(k, v)]))
  {
    WithIsWord();
    var ts := [verb, target, destination, "WITH", kv];
    ParseWords(ts);
    assert ts[3..] == [] + ["WITH"] + PairTokens([(k, v)]);
    BareTokenDropped([], "WITH", PairTokens([(k, v)]));
    ParamsOfPairTokens([(k, v)]);
  }

  lemma ExampleWords()
    ensures IsWord("EXEC") && IsWord("task1") && IsWord("agent1") && IsWord("priority=5")
  {
  }

  lemma ExampleText()
    ensures "EXEC task1 agent1 WITH priority=5"
         == "EXEC" + " " + "task1" + " " + "agent1" + " " + "WITH" + " " + "priority=5"
    ensures '=' !in "priority" && "priority=5" == "priority" + "=" + "5"
  {
  }

  /** The example line of the node's usage notes: `WITH` is dropped. */
  lemma ParseExample()
    ensures Parse("EXEC task1 agent1 WITH priority=5")
         == Ok(Statement("EXEC", "task1", "agent1", [("priority", "5")]))
  {
    ExampleWords();
    ExampleText();
    JoinFive("EXEC", "task1", "agent1", "WITH", "priority=5");
    ParseWithClause("EXEC", "task1", "agent1", "priority=5", "priority", "5");
  }
}
