/** The page parameters of the burndown page: `parseQueryString` reads
    `window.location.search` ("?key=value&key=value&/") into an object whose
    keys are lower-cased, and the search for the chart is built from its
    `component`, `whiteboard` and `bug`/`blocks` entries. The search text
    is a parameter, and so is `decodeURIComponent`, which either gives the
    decoded text or throws (None). */
module BurndownQuery {
  import opened Js

  /** The parsed query: each key is bound to a decoded value or to `null` (None). */
  type Query = map<string, Option<string>>

  /** `qs.slice(1, slash)`: the text after the leading "?", without one
      trailing "/". Only called when the search text is longer than one character. */
  function ParamText(search: string): string
    requires |search| > 1
  {
    if search[|search| - 1] == '/' then search[1..|search| - 1] else search[1..]
  }

  /** `qs.split("&")` */
  function Params(search: string): seq<string>
    requires |search| > 1
  {
    Split(ParamText(search), "&")
  }

  /** What one `kv` does to the result: nothing (empty key, as in "&&"),
      throw (the value does not decode), or bind its lower-cased key. */
  datatype Effect = Skip | Throws | Sets(key: string, value: Option<string>)

  /** `kv.split("=", 2)`: at most the first two pieces. */
  function KeyValue(param: string): (kv: seq<string>)
    ensures 1 <= |kv| <= 2
  {
    var pieces := Split(param, "=");
    if |pieces| > 2 then pieces[..2] else pieces
  }

  /** The key is `kv[0].toLowerCase()`; the value `decodeURIComponent(kv[1])`
      when there is a second piece and `null` otherwise. */
  function EffectOf(param: string, decode: string -> Option<string>): Effect {
    var kv := KeyValue(param);
    var key := Lower(kv[0]);
    if |key| == 0 then Skip
    else if |kv| > 1 then
      match decode(kv[1])
      case None => Throws
      case Some(v) => Sets(key, Some(v))
    else Sets(key, None)
  }

  /** The effect of each parameter, in order. */
  function EffectsOf(params: seq<string>, decode: string -> Option<string>): (es: seq<Effect>)
    ensures |es| == |params|
  {
    seq(|params|, i requires 0 <= i < |params| => EffectOf(params[i], decode))
  }

  /** The assignments `kvs[key] = value` made by a run of effects, in order,
      or None when one of them throws. */
  function Collect(effects: seq<Effect>): Option<seq<(string, Option<string>)>> {
    if |effects| == 0 then Some([])
    else
      match Collect(effects[..|effects| - 1])
      case None => None
      case Some(a) =>
        match effects[|effects| - 1]
        case Skip => Some(a)
        case Throws => None
        case Sets(k, v) => Some(a + [(k, v)])
  }

  /** `parseQueryString()`: None when it throws. */
  function QueryOf(search: string, decode: string -> Option<string>): Option<Query> {
    if |search| <= 1 then Some(map[])
    else
      match Collect(EffectsOf(Params(search), decode))
      case None => None
      case Some(a) => Some(Assign(a))
  }

  lemma CollectStep(effects: seq<Effect>, i: nat)
    requires i < |effects|
    ensures Collect(effects[..i + 1]) ==
              match Collect(effects[..i])
              case None => None
              case Some(a) =>
                match effects[i]
                case Skip => Some(a)
                case Throws => None
                case Sets(k, v) => Some(a + [(k, v)])
  {
    assert effects[..i + 1][..i] == effects[..i];
  }

  /** Once a parameter has thrown, the whole parse throws. */
  lemma {:induction false} ThrowStays(effects: seq<Effect>, n: nat)
    requires n <= |effects| && Collect(effects[..n]).None?
    ensures Collect(effects).None?
    decreases |effects| - n
  {
    if n < |effects| {
      CollectStep(effects, n);
      ThrowStays(effects, n + 1);
    } else {
      assert effects[..n] == effects;
    }
  }

  /** `parseQueryString`, written as the loop over the parameters. */
  method ParseQueryString(search: string, decode: string -> Option<string>) returns (r: Option<Query>)
    ensures r == QueryOf(search, decode)
  {
    if |search| <= 1 {
      return Some(map[]);
    }
    var qs := ParamText(search);
    var kvs: Query := map[];
    var params := Split(qs, "&");
    ghost var effects := EffectsOf(params, decode);
    ghost var assignments: seq<(string, Option<string>)> := [];
    for i := 0 to |params|
      invariant Collect(effects[..i]) == Some(assignments)
      invariant kvs == Assign(assignments)
    {
      CollectStep(effects, i);
      var kv := KeyValue(params[i]);
      var key := Lower(kv[0]);
      if |key| == 0 {
        assert effects[i] == Skip;
        continue;
      }
      var value: Option<string>;
      if |kv| > 1 {
        var decoded := decode(kv[1]);
        if decoded.None? {
          assert effects[i] == Throws;
          ThrowStays(effects, i + 1);
          return None;
        }
        value := decoded;
      } else {
        value := None;
      }
      assert effects[i] == Sets(key, value);
      AssignSnoc(assignments, key, value);
      assignments := assignments + [(key, value)];
      kvs := kvs[key := value];
    }
    assert effects[..|params|] == effects;
    return Some(kvs);
  }

  // ---------------------------------------------------------------------
  // What the parsed query holds

  /** An empty search, or a lone "?", gives the empty object. */
  lemma ShortSearch(search: string, decode: string -> Option<string>)
    requires |search| <= 1
    ensures QueryOf(search, decode) == Some(map[])
  {
  }

  lemma {:induction false} CollectFails(effects: seq<Effect>)
    ensures Collect(effects).None? <==> exists i :: 0 <= i < |effects| && effects[i].Throws?
  {
    if |effects| > 0 {
      var init := effects[..|effects| - 1];
      CollectFails(init);
      if exists i :: 0 <= i < |init| && init[i].Throws? {
        var i :| 0 <= i < |init| && init[i].Throws?;
        assert effects[i] == init[i];
      }
      if exists i :: 0 <= i < |effects| && effects[i].Throws? {
        var i :| 0 <= i < |effects| && effects[i].Throws?;
        if i < |init| {
          assert init[i] == effects[i];
        }
      }
    }
  }

  /** Parsing throws exactly when some parameter with a non-empty key has
      a value that does not decode. */
  lemma QueryThrows(search: string, decode: string -> Option<string>)
    ensures QueryOf(search, decode).None? <==>
              |search| > 1 &&
              exists i :: 0 <= i < |Params(search)| &&
                |Lower(KeyValue(Params(search)[i])[0])| > 0 && |KeyValue(Params(search)[i])| == 2 &&
                decode(KeyValue(Params(search)[i])[1]).None?
  {
    if |search| > 1 {
      var params := Params(search);
      var effects := EffectsOf(params, decode);
      CollectFails(effects);
      if exists i :: 0 <= i < |effects| && effects[i].Throws? {
        var i :| 0 <= i < |effects| && effects[i].Throws?;
        assert effects[i] == EffectOf(params[i], decode);
      }
      if exists i :: 0 <= i < |params| && |Lower(KeyValue(params[i])[0])| > 0 && |KeyValue(params[i])| == 2 &&
                     decode(KeyValue(params[i])[1]).None? {
        var i :| 0 <= i < |params| && |Lower(KeyValue(params[i])[0])| > 0 && |KeyValue(params[i])| == 2 &&
                 decode(KeyValue(params[i])[1]).None?;
        assert effects[i] == EffectOf(params[i], decode);
      }
    }
  }

  /** The bound keys are those some effect sets. */
  lemma {:induction false} CollectKeys(effects: seq<Effect>, k: string)
    requires Collect(effects).Some?
    ensures k in Assign(Collect(effects).value) <==> exists i :: 0 <= i < |effects| && effects[i].Sets? && effects[i].key == k
  {
    if |effects| > 0 {
      var init, last := effects[..|effects| - 1], effects[|effects| - 1];
      CollectKeys(init, k);
      var b := Collect(init).value;
      if last.Sets? {
        AssignSnoc(b, last.key, last.value);
      }
      if exists i :: 0 <= i < |init| && init[i].Sets? && init[i].key == k {
        var i :| 0 <= i < |init| && init[i].Sets? && init[i].key == k;
        assert effects[i] == init[i];
      }
      if exists i :: 0 <= i < |effects| && effects[i].Sets? && effects[i].key == k {
        var i :| 0 <= i < |effects| && effects[i].Sets? && effects[i].key == k;
        if i < |init| {
          assert init[i] == effects[i];
        }
      }
    }
  }

  lemma LowerIdempotent(s: string)
    ensures Lower(Lower(s)) == Lower(s)
  {
    LowerFacts(s);
  }

  /** A parameter only ever sets a non-empty, lower-case key. */
  lemma EffectKey(param: string, decode: string -> Option<string>)
    requires EffectOf(param, decode).Sets?
    ensures |EffectOf(param, decode).key| > 0 && Lower(EffectOf(param, decode).key) == EffectOf(param, decode).key
  {
    LowerIdempotent(KeyValue(param)[0]);
  }

  /** A key is bound exactly when some parameter sets it; every key is
      non-empty and already lower-case. */
  lemma QueryKeys(search: string, decode: string -> Option<string>, k: string)
    requires QueryOf(search, decode).Some?
    ensures k in QueryOf(search, decode).value <==>
              |search| > 1 && exists i :: 0 <= i < |Params(search)| && EffectOf(Params(search)[i], decode).Sets? &&
                                          EffectOf(Params(search)[i], decode).key == k
    ensures k in QueryOf(search, decode).value ==> |k| > 0 && Lower(k) == k
  {
    if |search| > 1 {
      var params := Params(search);
      var effects := EffectsOf(params, decode);
      CollectKeys(effects, k);
      if exists i :: 0 <= i < |effects| && effects[i].Sets? && effects[i].key == k {
        var i :| 0 <= i < |effects| && effects[i].Sets? && effects[i].key == k;
        assert effects[i] == EffectOf(params[i], decode);
        EffectKey(params[i], decode);
      }
      if exists i :: 0 <= i < |params| && EffectOf(params[i], decode).Sets? && EffectOf(params[i], decode).key == k {
        var i :| 0 <= i < |params| && EffectOf(params[i], decode).Sets? && EffectOf(params[i], decode).key == k;
        assert effects[i] == EffectOf(params[i], decode);
      }
    }
  }

  /** The value of a key is that of the last effect that sets it. */
  lemma {:induction false} CollectLastWins(effects: seq<Effect>, i: nat)
    requires i < |effects| && Collect(effects).Some?
    requires effects[i].Sets?
    requires forall j :: i < j < |effects| && effects[j].Sets? ==> effects[j].key != effects[i].key
    ensures effects[i].key in Assign(Collect(effects).value)
    ensures Assign(Collect(effects).value)[effects[i].key] == effects[i].value
  {
    var init, last := effects[..|effects| - 1], effects[|effects| - 1];
    var b := Collect(init).value;
    if i == |effects| - 1 {
      AssignSnoc(b, last.key, last.value);
    } else {
      assert init[i] == effects[i];
      forall j | i < j < |init| && init[j].Sets?
        ensures init[j].key != effects[i].key
      {
        assert init[j] == effects[j];
      }
      CollectLastWins(init, i);
      if last.Sets? {
        AssignSnoc(b, last.key, last.value);
      }
    }
  }

  /** The last parameter with a given key decides its value. */
  lemma LastParamWins(search: string, decode: string -> Option<string>, i: nat)
    requires |search| > 1 && i < |Params(search)|
    requires QueryOf(search, decode).Some?
    requires EffectOf(Params(search)[i], decode).Sets?
    requires forall j :: i < j < |Params(search)| && EffectOf(Params(search)[j], decode).Sets? ==>
               EffectOf(Params(search)[j], decode).key != EffectOf(Params(search)[i], decode).key
    ensures EffectOf(Params(search)[i], decode).key in QueryOf(search, decode).value
    ensures QueryOf(search, decode).value[EffectOf(Params(search)[i], decode).key] == EffectOf(Params(search)[i], decode).value
  {
    var params := Params(search);
    var effects := EffectsOf(params, decode);
    forall j | i < j < |effects| && effects[j].Sets?
      ensures effects[j].key != effects[i].key
    {
      assert effects[j] == EffectOf(params[j], decode);
    }
    CollectLastWins(effects, i);
  }

  /** A key without a value ("?debug") is bound to `null`. */
  lemma KeyWithoutValue(key: string, decode: string -> Option<string>)
    requires !Contains(key, "=") && |Lower(key)| > 0
    ensures EffectOf(key, decode) == Sets(Lower(key), None)
  {
    SplitWhole(key, "=");
  }

  /** "k=v" binds the lower-cased k to the decoded v, and "k=v=rest" does
      too: whatever follows a second "=" is dropped. */
  lemma KeyWithValue(key: string, value: string, rest: string, decode: string -> Option<string>)
    requires !Contains(key, "=") && !Contains(value, "=") && |Lower(key)| > 0
    requires decode(value).Some?
    ensures EffectOf(key + "=" + value, decode) == Sets(Lower(key), decode(value))
    ensures EffectOf(key + "=" + value + "=" + rest, decode) == Sets(Lower(key), decode(value))
  {
    SeparatorsAreBorderFree();
    SplitPiece(key, "=", value);
    SplitWhole(value, "=");
    assert key + "=" + value + "=" + rest == key + "=" + (value + "=" + rest);
    SplitPiece(key, "=", value + "=" + rest);
    SplitPiece(value, "=", rest);
  }

  /** One trailing "/" is dropped: "?t/" reads the parameters of "?t". */
  lemma TrailingSlash(t: string)
    requires |t| > 0 && t[|t| - 1] != '/'
    ensures ParamText("?" + t + "/") == t
    ensures ParamText("?" + t) == t
  {
    assert ("?" + t + "/")[1..|t| + 1] == t;
    assert ("?" + t)[1..] == t;
  }

  // ---------------------------------------------------------------------
  // The search terms

  /** `$bugzilla.field.COMPONENT`, `.WHITEBOARD` and `.BLOCKS`. */
  datatype Field = Component | Whiteboard | Blocks

  /** One `[field, value]` search term. */
  datatype Term = Term(field: Field, value: string)

  /** `queryString[key]`: undefined when the key is absent. */
  function Get(q: Query, key: string): Option<string> {
    if key in q then q[key] else None
  }

  /** `queryString.bug || queryString.blocks` */
  function BlocksParam(q: Query): Option<string> {
    if TruthyText(Get(q, "bug")) then Get(q, "bug") else Get(q, "blocks")
  }

  /** One term per comma-separated piece of a truthy parameter, none otherwise. */
  function TermsFor(field: Field, param: Option<string>): seq<Term> {
    if TruthyText(param) then TermsOf(field, Split(param.value, ",")) else []
  }

  /** One term of `field` per piece. */
  function TermsOf(field: Field, pieces: seq<string>): (r: seq<Term>)
    ensures |r| == |pieces|
  {
    seq(|pieces|, i requires 0 <= i < |pieces| => Term(field, pieces[i]))
  }

  /** The search of the page: the components, then the whiteboard, then the blocked bugs. */
  function SearchTermsOf(q: Query): seq<Term> {
    TermsFor(Component, Get(q, "component")) +
    (if TruthyText(Get(q, "whiteboard")) then [Term(Whiteboard, Get(q, "whiteboard").value)] else []) +
    TermsFor(Blocks, BlocksParam(q))
  }

  /** Pushes one term per comma-separated piece of `text`. */
  method PushPieces(terms: seq<Term>, field: Field, text: string) returns (r: seq<Term>)
    requires |text| > 0
    ensures r == terms + TermsFor(field, Some(text))
  {
    var pieces := Split(text, ",");
    r := terms;
    for i := 0 to |pieces|
      invariant r == terms + seq(i, j requires 0 <= j < i => Term(field, pieces[j]))
    {
      r := r + [Term(field, pieces[i])];
    }
  }

  /** The statements that fill `searchTerms`. */
  method BuildSearchTerms(q: Query) returns (searchTerms: seq<Term>)
    ensures searchTerms == SearchTermsOf(q)
  {
    searchTerms := [];
    var component := Get(q, "component");
    if TruthyText(component) {
      searchTerms := PushPieces(searchTerms, Component, component.value);
    }
    var whiteboard := Get(q, "whiteboard");
    if TruthyText(whiteboard) {
      searchTerms := searchTerms + [Term(Whiteboard, whiteboard.value)];
    }
    var blocks := BlocksParam(q);
    if TruthyText(blocks) {
      searchTerms := PushPieces(searchTerms, Blocks, blocks.value);
    }
  }

  /** The values of the terms of one field, in order. */
  function ValuesOf(terms: seq<Term>, field: Field): seq<string> {
    if |terms| == 0 then []
    else ValuesOf(terms[..|terms| - 1], field) + (if terms[|terms| - 1].field == field then [terms[|terms| - 1].value] else [])
  }

  lemma {:induction false} ValuesOfAppend(a: seq<Term>, b: seq<Term>, field: Field)
    ensures ValuesOf(a + b, field) == ValuesOf(a, field) + ValuesOf(b, field)
  {
    if |b| > 0 {
      ValuesOfAppend(a, b[..|b| - 1], field);
      assert (a + b)[..|a + b| - 1] == a + b[..|b| - 1];
    } else {
      assert a + b == a;
    }
  }

  lemma {:induction false} ValuesOfTerms(f: Field, field: Field, pieces: seq<string>, n: nat)
    requires n <= |pieces|
    ensures ValuesOf(TermsOf(f, pieces)[..n], field) == if f == field then pieces[..n] else []
  {
    if n > 0 {
      var ts := TermsOf(f, pieces);
      ValuesOfTerms(f, field, pieces, n - 1);
      assert ts[..n][..n - 1] == ts[..n - 1];
      assert ts[..n][n - 1] == Term(f, pieces[n - 1]);
      assert pieces[..n] == pieces[..n - 1] + [pieces[n - 1]];
    }
  }

  lemma ValuesOfTermsFor(f: Field, field: Field, param: Option<string>)
    ensures ValuesOf(TermsFor(f, param), field) == if f == field && TruthyText(param) then Split(param.value, ",") else []
  {
    if TruthyText(param) {
      var pieces := Split(param.value, ",");
      ValuesOfTerms(f, field, pieces, |pieces|);
      assert TermsOf(f, pieces)[..|pieces|] == TermsOf(f, pieces);
      assert pieces[..|pieces|] == pieces;
    }
  }

  /** The values of one field's terms: those of the component terms, the
      whiteboard term and the blocks terms, in that order. */
  lemma ValuesOfSearch(q: Query, field: Field)
    ensures ValuesOf(SearchTermsOf(q), field) ==
              (if field == Component && TruthyText(Get(q, "component")) then Split(Get(q, "component").value, ",") else []) +
              (if field == Whiteboard && TruthyText(Get(q, "whiteboard")) then [Get(q, "whiteboard").value] else []) +
              (if field == Blocks && TruthyText(BlocksParam(q)) then Split(BlocksParam(q).value, ",") else [])
  {
    var c := TermsFor(Component, Get(q, "component"));
    var w := if TruthyText(Get(q, "whiteboard")) then [Term(Whiteboard, Get(q, "whiteboard").value)] else [];
    var b := TermsFor(Blocks, BlocksParam(q));
    ValuesOfAppend(c + w, b, field);
    ValuesOfAppend(c, w, field);
    ValuesOfTermsFor(Component, field, Get(q, "component"));
    ValuesOfTermsFor(Blocks, field, BlocksParam(q));
    if |w| > 0 {
      assert w[..0] == [];
    }
  }

  /** The component terms are the comma-separated pieces of `component`,
      and joining their values with "," gives `component` back; the same
      holds for the blocks terms and `bug || blocks`; there is one
      whiteboard term, holding `whiteboard`, exactly when it is given. */
  lemma SearchTermsRoundTrip(q: Query)
    ensures TruthyText(Get(q, "component")) ==> ValuesOf(SearchTermsOf(q), Component) == Split(Get(q, "component").value, ",")
    ensures TruthyText(Get(q, "component")) ==> Join(ValuesOf(SearchTermsOf(q), Component), ",") == Get(q, "component").value
    ensures !TruthyText(Get(q, "component")) ==> ValuesOf(SearchTermsOf(q), Component) == []
    ensures TruthyText(BlocksParam(q)) ==> ValuesOf(SearchTermsOf(q), Blocks) == Split(BlocksParam(q).value, ",")
    ensures TruthyText(BlocksParam(q)) ==> Join(ValuesOf(SearchTermsOf(q), Blocks), ",") == BlocksParam(q).value
    ensures !TruthyText(BlocksParam(q)) ==> ValuesOf(SearchTermsOf(q), Blocks) == []
    ensures ValuesOf(SearchTermsOf(q), Whiteboard) == (if TruthyText(Get(q, "whiteboard")) then [Get(q, "whiteboard").value] else [])
  {
    ValuesOfSearch(q, Component);
    ValuesOfSearch(q, Whiteboard);
    ValuesOfSearch(q, Blocks);
    var c := if TruthyText(Get(q, "component")) then Split(Get(q, "component").value, ",") else [];
    var b := if TruthyText(BlocksParam(q)) then Split(BlocksParam(q).value, ",") else [];
    var w := if TruthyText(Get(q, "whiteboard")) then [Get(q, "whiteboard").value] else [];
    assert c + [] + [] == c;
    assert [] + [] + b == b;
    assert [] + w + [] == w;
    if TruthyText(Get(q, "component")) {
      JoinSplit(Get(q, "component").value, ",");
    }
    if TruthyText(BlocksParam(q)) {
      JoinSplit(BlocksParam(q).value, ",");
    }
  }

  /** A truthy `bug` parameter wins over `blocks`. */
  lemma BugWinsOverBlocks(q: Query)
    requires TruthyText(Get(q, "bug"))
    ensures BlocksParam(q) == Get(q, "bug")
  {
  }
}
