/**
 * What the `value!` grammar promises (src/macros.rs), proved of the model:
 * the keyword literals, the byte-string shorthand and its priority, arrays
 * in element order, maps with last-write-wins keys converted by `From`,
 * parenthesised keys, and each way a malformed literal fails.
 */
module LiteralProperties {
  import opened Results
  import opened Values
  import opened Conversions
  import opened Tokens
  import opened Expansion
  import opened Evaluation

  /**
   * One array element or map value as the grammar reads it: a single
   * literal token, or an expression that does not start with one.
   */
  predicate IsElement(e: seq<Tok>) {
    (|e| == 1 && IsLiteralToken(e[0])) || (IsExpression(e) && !IsLiteralToken(e[0]))
  }

  /** A lone bracketed group that the byte-string rules claim. */
  predicate IsByteForm(e: seq<Tok>) {
    |e| == 1 && e[0].Bracket? && (ByteElements(e[0].inner).Some? || IsTupleShape(e[0].inner))
  }

  /** Expands each element in order; the first failure is the result. */
  function ExpandAll(elems: seq<seq<Tok>>): (r: Result<seq<Code>, Error>)
    ensures r.Ok? ==> |r.value| == |elems|
  {
    if elems == [] then Ok([])
    else
      match Expand(elems[0])
      case Err(e) => Err(e)
      case Ok(c) =>
        match ExpandAll(elems[1..])
        case Err(e) => Err(e)
        case Ok(cs) => Ok([c] + cs)
  }

  /** The elements expand exactly when each does, to their codes in order. */
  lemma {:induction false} ExpandAllMeaning(elems: seq<seq<Tok>>)
    ensures var r := ExpandAll(elems);
      (r.Ok? <==> forall k :: 0 <= k < |elems| ==> Expand(elems[k]).Ok?) &&
      (r.Ok? ==> |r.value| == |elems| && forall k :: 0 <= k < |elems| ==> r.value[k] == Expand(elems[k]).value)
  {
    if elems != [] {
      ExpandAllMeaning(elems[1..]);
      assert forall k :: 1 <= k < |elems| ==> elems[k] == elems[1..][k - 1];
    }
  }

  lemma {:induction false} ExpandAllSnoc(init: seq<seq<Tok>>, last: seq<Tok>)
    ensures ExpandAll(init + [last]) ==
      match ExpandAll(init)
      case Err(e) => Err(e)
      case Ok(cs) => (match Expand(last) case Err(e) => Err(e) case Ok(c) => Ok(cs + [c]))
  {
    if init == [] {
      assert [] + [last] == [last] && [last][1..] == [];
      match Expand(last)
      case Err(_) =>
      case Ok(c) => assert [c] + [] == [] + [c];
    } else {
      assert (init + [last])[1..] == init[1..] + [last];
      ExpandAllSnoc(init[1..], last);
      match Expand(init[0])
      case Err(_) =>
      case Ok(c0) =>
        match ExpandAll(init[1..])
        case Err(_) =>
        case Ok(cs) =>
          match Expand(last)
          case Err(_) =>
          case Ok(c) => assert [c0] + (cs + [c]) == ([c0] + cs) + [c];
    }
  }

  /** A non-empty `[...]` that is no byte string is read by the array muncher. */
  lemma ArrayLiteralIsMunched(inner: seq<Tok>)
    requires inner != [] && !IsByteForm(inner)
    ensures Expand([Bracket(inner)]) ==
      if ExpandArray([], false, inner).Err? then Err(ExpandArray([], false, inner).error)
      else Ok(SeqCode(ExpandArray([], false, inner).value))
  {
    assert Expand([Bracket(inner)]) == ExpandBracket(inner);
  }

  /** A non-empty `{...}` is read by the object muncher. */
  lemma ObjectLiteralIsMunched(inner: seq<Tok>)
    requires inner != []
    ensures Expand([Brace(inner)]) ==
      if ObjectKey([], [], inner).Err? then Err(ObjectKey([], [], inner).error)
      else Ok(MapCode(ObjectKey([], [], inner).value))
  {
    assert Expand([Brace(inner)]) == ExpandBrace(inner);
  }

  // ---------------------------------------------------------------------
  // Keywords and the expression fallback
  // ---------------------------------------------------------------------

  /** `null`, `true` and `false` build `Unit`, `Bool(true)` and `Bool(false)`. */
  lemma KeywordLiterals(env: Env)
    ensures Build(env, [Null]) == Ok(Unit)
    ensures Build(env, [True]) == Ok(Bool(true))
    ensures Build(env, [False]) == Ok(Bool(false))
  {
  }

  /** Any other expression is handed to `to_value`; its failure is the literal's failure. */
  lemma OtherExpression(env: Env, ts: seq<Tok>)
    requires IsExpression(ts) && !(|ts| == 1 && IsLiteralToken(ts[0]))
    ensures Expand(ts) == Ok(ToValueCode(ts))
    ensures Build(env, ts) == match env.toValue(ts) case Some(v) => Ok(v) case None => Err(ConversionFailed(ts))
  {
  }

  /** A literal token is built by the grammar, never by `to_value` on itself. */
  lemma LiteralsNeverConverted(t: Tok)
    requires IsLiteralToken(t)
    ensures Expand([t]) != Ok(ToValueCode([t]))
  {
    assert Expand([t]) == ExpandLiteral(t);
    if t.Bracket? {
      var inner := t.inner;
      if |inner| == 1 && inner[0].Bracket? && ByteElements(inner[0].inner).Some? {
        assert ExpandBracket(inner).value.BytesCode?;
      } else if |inner| == 1 && inner[0].Bracket? && IsTupleShape(inner[0].inner) {
        var b := inner[0].inner;
        assert ExpandBracket(inner) == Ok(ToValueCode([Paren(b[..|b| - 1])]));
        assert [Paren(b[..|b| - 1])][0] != [t][0];
      } else {
        assert ExpandBracket(inner).Err? || ExpandBracket(inner).value.SeqCode?;
      }
    } else if t.Brace? {
      assert ExpandBrace(t.inner).Err? || ExpandBrace(t.inner).value.MapCode?;
    }
  }

  // ---------------------------------------------------------------------
  // The byte-string shorthand
  // ---------------------------------------------------------------------

  /** `[[e1, ..., en]]` builds `Bytes` of the n bytes, in order, ahead of the array rule. */
  lemma BytesLiteral(env: Env, elems: seq<seq<Tok>>)
    requires forall k :: 0 <= k < |elems| ==> IsExpression(elems[k])
    ensures Expand([Bracket([Bracket(JoinCommas(elems))])]) == Ok(BytesCode(elems))
    ensures var r := Build(env, [Bracket([Bracket(JoinCommas(elems))])]);
      (r.Ok? <==> forall k :: 0 <= k < |elems| ==> env.byte(elems[k]).Some?) &&
      (r.Ok? ==> r.value.Bytes? && |r.value.bytes| == |elems| &&
                 forall k :: 0 <= k < |elems| ==> r.value.bytes[k] == env.byte(elems[k]).value)
  {
    ByteElementsOfJoin(elems);
    assert Expand([Bracket([Bracket(JoinCommas(elems))])]) == ExpandBracket([Bracket(JoinCommas(elems))]);
  }

  /** The contents of `[[e1, ..., en]]` split back into the n expressions. */
  lemma ByteElementsOfJoin(elems: seq<seq<Tok>>)
    requires forall k :: 0 <= k < |elems| ==> IsExpression(elems[k])
    ensures ByteElements(JoinCommas(elems)) == Some(elems)
  {
    if elems != [] {
      assert |JoinCommas(elems)| >= |elems[0]| > 0;
      SplitJoin(elems);
    }
  }

  /**
   * `[[e1, ..., en,]]` is no byte string: it re-enters the macro on the
   * parenthesised group `(e1, ..., en)`, a tuple for n >= 2 and the
   * parenthesised expression `(e1)` for n = 1.
   */
  lemma BytesTrailingComma(elems: seq<seq<Tok>>)
    requires |elems| >= 1
    requires forall k :: 0 <= k < |elems| ==> IsExpression(elems[k])
    ensures Expand([Bracket([Bracket(JoinCommas(elems) + [Comma])])]) == Expand([Paren(JoinCommas(elems))])
    ensures Expand([Paren(JoinCommas(elems))]) == Ok(ToValueCode([Paren(JoinCommas(elems))]))
  {
    TupleOfList(elems);
    TupleExpands(JoinCommas(elems) + [Comma]);
    ParenExpands(JoinCommas(elems));
  }

  /** `to_value` sees through parentheses: `(e)` serialises as `e` does. */
  ghost predicate ParensTransparent(env: Env) {
    forall ts :: IsExpression(ts) ==> env.toValue([Paren(ts)]) == env.toValue(ts)
  }

  /**
   * `[[e,]]` re-enters the macro on `(e)`, which Rust reads as the
   * parenthesised expression `e`, not as a 1-tuple: it is `to_value(&e)`.
   */
  lemma SingleTrailingByte(env: Env, e: seq<Tok>)
    requires IsExpression(e)
    requires ParensTransparent(env)
    ensures Build(env, [Bracket([Bracket(e + [Comma])])]) ==
      match env.toValue(e)
      case Some(v) => Ok(v)
      case None => Err(ConversionFailed([Paren(e)]))
  {
    assert JoinCommas([e]) == e;
    BytesTrailingComma([e]);
    assert Expand([Bracket([Bracket(e + [Comma])])]) == Ok(ToValueCode([Paren(e)]));
    assert env.toValue([Paren(e)]) == env.toValue(e);
  }

  lemma TupleOfList(elems: seq<seq<Tok>>)
    requires |elems| >= 1
    requires forall k :: 0 <= k < |elems| ==> IsExpression(elems[k])
    ensures var b := JoinCommas(elems) + [Comma];
      ByteElements(b).None? && IsTupleShape(b) && b[..|b| - 1] == JoinCommas(elems)
  {
    var b := JoinCommas(elems) + [Comma];
    assert b[..|b| - 1] == JoinCommas(elems);
    TrailingCommaIsNoByteString(elems);
    ByteElementsOfJoin(elems);
  }

  /** A parenthesised group is an expression. */
  lemma ParenExpands(b: seq<Tok>)
    ensures Expand([Paren(b)]) == Ok(ToValueCode([Paren(b)]))
  {
    assert IsExpression([Paren(b)]);
  }

  /** The tuple rule: `[[e1, ..., en,]]` becomes `to_value` of the group `(e1, ..., en)`. */
  lemma TupleExpands(b: seq<Tok>)
    requires ByteElements(b).None? && IsTupleShape(b)
    ensures Expand([Bracket([Bracket(b)])]) == Ok(ToValueCode([Paren(b[..|b| - 1])]))
  {
    assert Expand([Bracket([Bracket(b)])]) == ExpandBracket([Bracket(b)]);
  }

  /** A trailing comma leaves an empty last run, which is no expression. */
  lemma TrailingCommaIsNoByteString(elems: seq<seq<Tok>>)
    requires |elems| >= 1
    requires forall k :: 0 <= k < |elems| ==> IsExpression(elems[k])
    ensures ByteElements(JoinCommas(elems) + [Comma]).None?
  {
    var b := JoinCommas(elems) + [Comma];
    JoinSnoc(elems, []);
    assert JoinCommas(elems) + [Comma] + [] == b;
    SplitJoin(elems + [[]]);
    assert SplitCommas(b)[|elems|] == [];
  }

  lemma {:induction false} JoinSnoc(runs: seq<seq<Tok>>, last: seq<Tok>)
    requires |runs| >= 1
    ensures JoinCommas(runs + [last]) == JoinCommas(runs) + [Comma] + last
  {
    if |runs| == 1 {
      assert runs + [last] == [runs[0], last];
      assert [runs[0], last][1..] == [last];
    } else {
      assert (runs + [last])[1..] == runs[1..] + [last];
      JoinSnoc(runs[1..], last);
    }
  }

  // ---------------------------------------------------------------------
  // Arrays
  // ---------------------------------------------------------------------

  /** One element of an array, followed by a comma or by the end. */
  lemma ArrayStep(items: seq<Code>, trailing: bool, e: seq<Tok>, rest: seq<Tok>)
    requires |items| == 0 || trailing
    requires IsElement(e)
    requires rest == [] || rest[0].Comma?
    ensures ExpandArray(items, trailing, e + rest) ==
      match Expand(e) case Err(x) => Err(x) case Ok(c) => ExpandArray(items + [c], false, rest)
  {
    var ts := e + rest;
    if |e| == 1 && IsLiteralToken(e[0]) {
      assert ts[0] == e[0] && ts[1..] == rest;
    } else {
      assert ts[0] == e[0];
      assert Expand(e) == Ok(ToValueCode(e));
      CommaIndexOfRun(e, rest);
      assert ts[..|e|] == e;
      if rest == [] {
        assert ts == e;
      } else {
        assert ts[|e| + 1..] == rest[1..];
        assert ExpandArray(items + [ToValueCode(e)], false, rest) == ExpandArray(items + [ToValueCode(e)], true, rest[1..]);
      }
    }
  }

  /** The comma after an element. */
  lemma ArrayComma(items: seq<Code>, rest: seq<Tok>)
    requires items != []
    ensures ExpandArray(items, false, [Comma] + rest) == ExpandArray(items, true, rest)
  {
    assert ([Comma] + rest)[1..] == rest;
  }

  /** The muncher over `e1, ..., en,`: the elements in source order, or the first element's failure. */
  lemma {:induction false} ArrayPrefix(items: seq<Code>, trailing: bool, elems: seq<seq<Tok>>, rest: seq<Tok>)
    requires |items| == 0 || trailing
    requires forall k :: 0 <= k < |elems| ==> IsElement(elems[k])
    ensures ExpandArray(items, trailing, ListPrefix(elems) + rest) ==
      match ExpandAll(elems)
      case Err(x) => Err(x)
      case Ok(cs) => ExpandArray(items + cs, trailing || cs != [], rest)
    decreases elems
  {
    if elems == [] {
      assert ListPrefix(elems) + rest == rest;
      assert items + [] == items;
    } else {
      var e, tail := elems[0], ListPrefix(elems[1..]) + rest;
      assert ListPrefix(elems) + rest == e + ([Comma] + tail);
      ArrayStep(items, trailing, e, [Comma] + tail);
      match Expand(e)
      case Err(_) =>
      case Ok(c) =>
        ArrayPrefix(items + [c], true, elems[1..], rest);
        match ExpandAll(elems[1..])
        case Err(_) =>
          calc {
            ExpandArray(items, trailing, ListPrefix(elems) + rest);
            ExpandArray(items + [c], false, [Comma] + tail);
            { ArrayComma(items + [c], tail); }
            ExpandArray(items + [c], true, tail);
          }
        case Ok(cs) =>
          calc {
            ExpandArray(items, trailing, ListPrefix(elems) + rest);
            ExpandArray(items + [c], false, [Comma] + tail);
            { ArrayComma(items + [c], tail); }
            ExpandArray(items + [c], true, tail);
            ExpandArray(items + [c] + cs, true, rest);
            { AppendAssoc(items, [c], cs); }
            ExpandArray(items + ([c] + cs), true, rest);
          }
          assert ExpandAll(elems) == Ok([c] + cs);
    }
  }

  /** `[]` builds an empty `Seq`, `{}` an empty `Map`. */
  lemma EmptyCollections(env: Env)
    ensures Expand([Bracket([])]) == Ok(SeqCode([])) && Build(env, [Bracket([])]) == Ok(Seq([]))
    ensures Expand([Brace([])]) == Ok(MapCode([])) && Build(env, [Brace([])]) == Ok(Map(map[]))
  {
  }

  /**
   * `[e1, ..., en]`, with or without a trailing comma, expands to the n
   * elements in order. A single bracketed element without a comma is the
   * byte-string form instead.
   */
  lemma SeqLiteral(elems: seq<seq<Tok>>, trailing: bool)
    requires |elems| >= 1
    requires forall k :: 0 <= k < |elems| ==> IsElement(elems[k])
    requires !(|elems| == 1 && !trailing && IsByteForm(elems[0]))
    ensures Expand([Bracket(JoinCommas(elems) + (if trailing then [Comma] else []))]) ==
      match ExpandAll(elems) case Err(x) => Err(x) case Ok(cs) => Ok(SeqCode(cs))
  {
    var inner := JoinCommas(elems) + (if trailing then [Comma] else []);
    assert inner != [] && !IsByteForm(inner) by {
      if |elems| >= 2 {
        assert JoinCommas(elems) == elems[0] + [Comma] + JoinCommas(elems[1..]);
      }
    }
    ArrayLiteralIsMunched(inner);
    if trailing {
      ArrayOfTerminatedList(elems);
      JoinThenComma(elems);
    } else {
      ArrayOfJoinedList(elems);
      AppendEmpty(JoinCommas(elems));
    }
  }

  /** `e1, ..., en,` read from the start of an array. */
  lemma ArrayOfTerminatedList(elems: seq<seq<Tok>>)
    requires forall k :: 0 <= k < |elems| ==> IsElement(elems[k])
    ensures ExpandArray([], false, ListPrefix(elems)) == ExpandAll(elems)
  {
    ArrayPrefix([], false, elems, []);
    AppendEmpty(ListPrefix(elems));
    match ExpandAll(elems)
    case Err(_) =>
    case Ok(cs) => AppendEmpty(cs);
  }

  /** `e1, ..., en` read from the start of an array. */
  lemma ArrayOfJoinedList(elems: seq<seq<Tok>>)
    requires |elems| >= 1
    requires forall k :: 0 <= k < |elems| ==> IsElement(elems[k])
    ensures ExpandArray([], false, JoinCommas(elems)) == ExpandAll(elems)
  {
    var n := |elems|;
    var init, last := elems[..n - 1], elems[n - 1];
    JoinIsPrefixThenLast(elems);
    ArrayPrefix([], false, init, last);
    ExpandAllInit(elems);
    match ExpandAll(init)
    case Err(_) =>
    case Ok(cs) =>
      AppendEmpty(cs);
      AppendEmpty(last);
      ArrayStep(cs, cs != [], last, []);
  }

  /** The value of `[e1, ..., en]` is the `Seq` of the elements' values; it fails exactly when one of them does. */
  lemma SeqLiteralBuild(env: Env, elems: seq<seq<Tok>>, trailing: bool)
    requires |elems| >= 1
    requires forall k :: 0 <= k < |elems| ==> IsElement(elems[k])
    requires !(|elems| == 1 && !trailing && IsByteForm(elems[0]))
    ensures var r := Build(env, [Bracket(JoinCommas(elems) + (if trailing then [Comma] else []))]);
      (r.Ok? <==> forall k :: 0 <= k < |elems| ==> Build(env, elems[k]).Ok?) &&
      (r.Ok? ==> r.value.Seq? && |r.value.items| == |elems| &&
                 forall k :: 0 <= k < |elems| ==> r.value.items[k] == Build(env, elems[k]).value)
  {
    SeqLiteral(elems, trailing);
    ExpandAllMeaning(elems);
  }

  /** A leading comma inside an array is skipped: `[, e1, ...]` reads as `[e1, ...]`. */
  lemma LeadingCommaSkipped(rest: seq<Tok>)
    requires rest != [] && !IsByteForm(rest)
    ensures Expand([Bracket([Comma] + rest)]) == Expand([Bracket(rest)])
    ensures Expand([Bracket([Comma])]) == Ok(SeqCode([]))
  {
    ArrayLiteralIsMunched([Comma] + rest);
    ArrayLiteralIsMunched(rest);
    ArrayLeadingComma(rest);
    ArrayLiteralIsMunched([Comma]);
    ArrayLeadingComma([]);
    AppendEmpty([Comma]);
  }

  /** With nothing read yet, a comma is munched and the muncher starts over. */
  lemma ArrayLeadingComma(rest: seq<Tok>)
    ensures ExpandArray([], false, [Comma] + rest) == ExpandArray([], false, rest)
  {
    assert ([Comma] + rest)[1..] == rest;
    assert ExpandArray([], false, [Comma] + rest) == ExpandArray([], true, rest);
    if rest != [] {
      assert ExpandArray([], true, rest) == ExpandArray([], false, rest);
    }
  }

  /** A literal element must be followed by a comma or by the end. */
  lemma ArrayAfterLiteral(items: seq<Code>, trailing: bool, t: Tok, x: Tok, rest: seq<Tok>)
    requires |items| == 0 || trailing
    requires IsLiteralToken(t) && Expand([t]).Ok?
    requires !x.Comma?
    ensures ExpandArray(items, trailing, [t, x] + rest) == Err(UnexpectedToken(x))
  {
    var ts := [t, x] + rest;
    assert ts[0] == t && ts[1..] == [x] + rest && ([x] + rest)[0] == x;
    assert Expand([t]) == ExpandLiteral(t);
  }

  /** A token after a complete literal element, other than a comma, is refused. */
  lemma ArrayUnexpectedToken(elems: seq<seq<Tok>>, t: Tok, x: Tok, rest: seq<Tok>)
    requires forall k :: 0 <= k < |elems| ==> IsElement(elems[k])
    requires ExpandAll(elems).Ok?
    requires IsLiteralToken(t) && Expand([t]).Ok?
    requires !x.Comma?
    ensures Expand([Bracket(ListPrefix(elems) + [t, x] + rest)]) == Err(UnexpectedToken(x))
  {
    var inner := ListPrefix(elems) + ([t, x] + rest);
    AppendAssoc(ListPrefix(elems), [t, x], rest);
    ArrayLiteralIsMunched(inner);
    ArrayPrefix([], false, elems, [t, x] + rest);
    var cs := ExpandAll(elems).value;
    AppendEmpty(cs);
    ArrayAfterLiteral(cs, cs != [], t, x, rest);
  }

  /** A comma where an element should follow a comma is refused. */
  lemma ArrayCommaAfterComma(items: seq<Code>, rest: seq<Tok>)
    requires items != []
    ensures ExpandArray(items, true, [Comma] + rest) == Err(NoRuleMatches([Comma] + rest))
  {
    assert CommaIndex([Comma] + rest) == 0;
    assert ([Comma] + rest)[..0] == [];
  }

  /** A second comma after an element is refused. */
  lemma ArrayDoubleComma(elems: seq<seq<Tok>>, rest: seq<Tok>)
    requires |elems| >= 1
    requires forall k :: 0 <= k < |elems| ==> IsElement(elems[k])
    requires ExpandAll(elems).Ok?
    ensures Expand([Bracket(ListPrefix(elems) + [Comma] + rest)]) == Err(NoRuleMatches([Comma] + rest))
  {
    var inner := ListPrefix(elems) + ([Comma] + rest);
    AppendAssoc(ListPrefix(elems), [Comma], rest);
    assert |ListPrefix(elems)| >= 1;
    ArrayLiteralIsMunched(inner);
    ArrayPrefix([], false, elems, [Comma] + rest);
    var cs := ExpandAll(elems).value;
    AppendEmpty(cs);
    ArrayCommaAfterComma(cs, rest);
  }

  // ---------------------------------------------------------------------
  // Maps
  // ---------------------------------------------------------------------

  /** The tokens an entry's key is made of: a fully parenthesised key loses its parentheses. */
  function KeyTokens(k: seq<Tok>): seq<Tok> {
    if |k| == 1 && k[0].Paren? && IsExpression(k[0].inner) then k[0].inner else k
  }

  /** `k1 : v1`, ..., `kn : vn`: the runs between the commas of a map literal. */
  function EntryRuns(keys: seq<seq<Tok>>, vals: seq<seq<Tok>>): (runs: seq<seq<Tok>>)
    requires |keys| == |vals|
    ensures |runs| == |keys|
  {
    seq(|keys|, i requires 0 <= i < |keys| => keys[i] + [Colon] + vals[i])
  }

  /** The entries a map literal expands to, keys and value codes paired in order. */
  function MakeEntries(keys: seq<seq<Tok>>, cs: seq<Code>): (es: seq<Entry>)
    requires |keys| == |cs|
    ensures |es| == |keys|
  {
    seq(|keys|, i requires 0 <= i < |keys| => Entry(KeyTokens(keys[i]), cs[i]))
  }

  /** Munching key tokens one at a time until a colon, a comma or the end. */
  lemma {:induction false} KeyMunch(entries: seq<Entry>, key: seq<Tok>, k: seq<Tok>, rest: seq<Tok>)
    requires forall i :: 0 <= i < |k| ==> !k[i].Comma? && !k[i].Colon?
    requires key != [] || !(|k| == 1 && k[0].Paren? && rest != [] && rest[0].Colon? && IsExpression(k[0].inner))
    ensures ObjectKey(entries, key, k + rest) == ObjectKey(entries, key + k, rest)
    decreases k
  {
    if k == [] {
      assert key + k == key && k + rest == rest;
    } else {
      var ts := k + rest;
      assert ts[0] == k[0] && ts[1..] == k[1..] + rest;
      if |k| >= 2 {
        assert ts[1] == k[1];
      }
      KeyMunch(entries, key + [k[0]], k[1..], rest);
      assert key + [k[0]] + k[1..] == key + k;
    }
  }

  /** Reading a key up to its colon; a parenthesised key is taken as the expression inside. */
  lemma KeyRead(entries: seq<Entry>, k: seq<Tok>, rest: seq<Tok>)
    requires IsExpression(k)
    ensures ObjectKey(entries, [], k + [Colon] + rest) == ObjectKey(entries, KeyTokens(k), [Colon] + rest)
  {
    var ts := k + [Colon] + rest;
    if |k| == 1 && k[0].Paren? && IsExpression(k[0].inner) {
      assert ts[0] == k[0] && ts[1] == Colon && ts[1..] == [Colon] + rest;
    } else {
      assert ts == k + ([Colon] + rest);
      KeyMunch(entries, [], k, [Colon] + rest);
      assert [] + k == k;
    }
  }

  /** Reading a value after its key's colon, up to the next comma or the end. */
  lemma ValueRead(entries: seq<Entry>, key: seq<Tok>, v: seq<Tok>, rest: seq<Tok>)
    requires key != []
    requires IsElement(v)
    requires rest == [] || rest[0].Comma?
    ensures ObjectKey(entries, key, [Colon] + v + rest) ==
      if Expand(v).Err? then Err(Expand(v).error) else ObjectEntry(entries, key, Expand(v).value, rest)
  {
    var ts := [Colon] + v + rest;
    assert ts[1..] == v + rest;
    if |v| == 1 && IsLiteralToken(v[0]) {
      assert ts[1] == v[0] && ts[2..] == rest;
    } else {
      CommaIndexOfRun(v, rest);
      assert ts[1..1 + |v|] == v;
      assert ts[1 + |v|..] == rest;
    }
  }

  /** The first entry of a comma-terminated entry list, split off. */
  lemma EntryListCons(keys: seq<seq<Tok>>, vals: seq<seq<Tok>>, rest: seq<Tok>)
    requires |keys| == |vals| >= 1
    ensures ListPrefix(EntryRuns(keys, vals)) + rest ==
      keys[0] + [Colon] + (vals[0] + ([Comma] + (ListPrefix(EntryRuns(keys[1..], vals[1..])) + rest)))
  {
    var runs := EntryRuns(keys, vals);
    assert runs[0] == keys[0] + [Colon] + vals[0];
    assert runs[1..] == EntryRuns(keys[1..], vals[1..]);
  }

  lemma MakeEntriesCons(keys: seq<seq<Tok>>, c: Code, cs: seq<Code>)
    requires |keys| == |cs| + 1
    ensures MakeEntries(keys, [c] + cs) == [Entry(KeyTokens(keys[0]), c)] + MakeEntries(keys[1..], cs)
  {
  }

  /** The comma after an entry's value: the entry is inserted and the next key begins. */
  lemma EntryComma(entries: seq<Entry>, key: seq<Tok>, c: Code, rest: seq<Tok>)
    ensures ObjectEntry(entries, key, c, [Comma] + rest) == ObjectKey(entries + [Entry(key, c)], [], rest)
  {
    assert ([Comma] + rest)[1..] == rest;
  }

  /** The muncher over `k1: v1, ..., kn: vn,`: one entry per pair, in order, or the first failure. */
  lemma {:induction false} ObjectPrefix(entries: seq<Entry>, keys: seq<seq<Tok>>, vals: seq<seq<Tok>>, rest: seq<Tok>)
    requires |keys| == |vals|
    requires forall i :: 0 <= i < |keys| ==> IsExpression(keys[i]) && IsElement(vals[i])
    ensures ObjectKey(entries, [], ListPrefix(EntryRuns(keys, vals)) + rest) ==
      match ExpandAll(vals)
      case Err(x) => Err(x)
      case Ok(cs) => ObjectKey(entries + MakeEntries(keys, cs), [], rest)
    decreases keys
  {
    if keys == [] {
      assert EntryRuns(keys, vals) == [] && MakeEntries(keys, []) == [];
      AppendEmpty(rest);
      AppendEmpty(entries);
    } else {
      var k, v := keys[0], vals[0];
      var tail := ListPrefix(EntryRuns(keys[1..], vals[1..])) + rest;
      var x := v + ([Comma] + tail);
      EntryListCons(keys, vals, rest);
      KeyRead(entries, k, x);
      AppendAssoc([Colon], v, [Comma] + tail);
      ValueRead(entries, KeyTokens(k), v, [Comma] + tail);
      match Expand(v)
      case Err(_) =>
      case Ok(c) =>
        var e0 := Entry(KeyTokens(k), c);
        EntryComma(entries, KeyTokens(k), c, tail);
        ObjectPrefix(entries + [e0], keys[1..], vals[1..], rest);
        match ExpandAll(vals[1..])
        case Err(_) =>
          calc {
            ObjectKey(entries, [], ListPrefix(EntryRuns(keys, vals)) + rest);
            ObjectKey(entries, KeyTokens(k), [Colon] + x);
            ObjectEntry(entries, KeyTokens(k), c, [Comma] + tail);
            ObjectKey(entries + [e0], [], tail);
          }
        case Ok(cs) =>
          MakeEntriesCons(keys, c, cs);
          AppendAssoc(entries, [e0], MakeEntries(keys[1..], cs));
          calc {
            ObjectKey(entries, [], ListPrefix(EntryRuns(keys, vals)) + rest);
            ObjectKey(entries, KeyTokens(k), [Colon] + x);
            ObjectEntry(entries, KeyTokens(k), c, [Comma] + tail);
            ObjectKey(entries + [e0], [], tail);
            ObjectKey(entries + [e0] + MakeEntries(keys[1..], cs), [], rest);
            ObjectKey(entries + MakeEntries(keys, [c] + cs), [], rest);
          }
          assert ExpandAll(vals) == Ok([c] + cs);
    }
  }

  /** The last entry of a map literal without a trailing comma. */
  lemma LastEntry(entries: seq<Entry>, k: seq<Tok>, v: seq<Tok>)
    requires IsExpression(k) && IsElement(v)
    ensures ObjectKey(entries, [], k + [Colon] + v) ==
      if Expand(v).Err? then Err(Expand(v).error) else Ok(entries + [Entry(KeyTokens(k), Expand(v).value)])
  {
    KeyRead(entries, k, v);
    AppendEmpty([Colon] + v);
    ValueRead(entries, KeyTokens(k), v, []);
  }

  lemma MakeEntriesSnoc(keys: seq<seq<Tok>>, cs: seq<Code>, c: Code)
    requires |keys| == |cs| + 1
    ensures MakeEntries(keys, cs + [c]) == MakeEntries(keys[..|keys| - 1], cs) + [Entry(KeyTokens(keys[|keys| - 1]), c)]
  {
  }

  /** `k1: v1, ..., kn: vn,` read from the start of a map. */
  lemma ObjectOfTerminatedList(keys: seq<seq<Tok>>, vals: seq<seq<Tok>>)
    requires |keys| == |vals|
    requires forall i :: 0 <= i < |keys| ==> IsExpression(keys[i]) && IsElement(vals[i])
    ensures ObjectKey([], [], ListPrefix(EntryRuns(keys, vals))) ==
      match ExpandAll(vals) case Err(x) => Err(x) case Ok(cs) => Ok(MakeEntries(keys, cs))
  {
    ObjectPrefix([], keys, vals, []);
    AppendEmpty(ListPrefix(EntryRuns(keys, vals)));
    match ExpandAll(vals)
    case Err(_) =>
    case Ok(cs) => AppendEmpty(MakeEntries(keys, cs));
  }

  /** A joined entry list is the comma-terminated list of all but the last entry, then the last entry. */
  lemma EntryRunsInit(keys: seq<seq<Tok>>, vals: seq<seq<Tok>>)
    requires |keys| == |vals| >= 1
    ensures JoinCommas(EntryRuns(keys, vals)) ==
      ListPrefix(EntryRuns(keys[..|keys| - 1], vals[..|keys| - 1])) + (keys[|keys| - 1] + [Colon] + vals[|keys| - 1])
  {
    var runs := EntryRuns(keys, vals);
    JoinIsPrefixThenLast(runs);
    assert runs[..|keys| - 1] == EntryRuns(keys[..|keys| - 1], vals[..|keys| - 1]);
  }

  lemma ExpandAllInit(vals: seq<seq<Tok>>)
    requires |vals| >= 1
    ensures ExpandAll(vals) ==
      match ExpandAll(vals[..|vals| - 1])
      case Err(e) => Err(e)
      case Ok(cs) => (match Expand(vals[|vals| - 1]) case Err(e) => Err(e) case Ok(c) => Ok(cs + [c]))
  {
    SplitLast(vals);
    ExpandAllSnoc(vals[..|vals| - 1], vals[|vals| - 1]);
  }

  /** The complete entries of a map literal, then its last entry without a trailing comma. */
  lemma PrefixThenLastEntry(ik: seq<seq<Tok>>, iv: seq<seq<Tok>>, cs: seq<Code>, k: seq<Tok>, v: seq<Tok>)
    requires |ik| == |iv|
    requires forall i :: 0 <= i < |ik| ==> IsExpression(ik[i]) && IsElement(iv[i])
    requires ExpandAll(iv) == Ok(cs)
    requires IsExpression(k) && IsElement(v)
    ensures ObjectKey([], [], ListPrefix(EntryRuns(ik, iv)) + (k + [Colon] + v)) ==
      if Expand(v).Err? then Err(Expand(v).error) else Ok(MakeEntries(ik, cs) + [Entry(KeyTokens(k), Expand(v).value)])
  {
    var es := MakeEntries(ik, cs);
    ObjectPrefix([], ik, iv, k + [Colon] + v);
    AppendEmpty(es);
    LastEntry(es, k, v);
  }

  /** `k1: v1, ..., kn: vn` read from the start of a map. */
  lemma ObjectOfJoinedList(keys: seq<seq<Tok>>, vals: seq<seq<Tok>>)
    requires |keys| == |vals| >= 1
    requires forall i :: 0 <= i < |keys| ==> IsExpression(keys[i]) && IsElement(vals[i])
    ensures ObjectKey([], [], JoinCommas(EntryRuns(keys, vals))) ==
      match ExpandAll(vals) case Err(x) => Err(x) case Ok(cs) => Ok(MakeEntries(keys, cs))
  {
    var n := |keys|;
    var ik, iv, k, v := keys[..n - 1], vals[..n - 1], keys[n - 1], vals[n - 1];
    EntryRunsInit(keys, vals);
    assert forall i :: 0 <= i < |ik| ==> ik[i] == keys[i] && iv[i] == vals[i];
    ExpandAllInit(vals);
    match ExpandAll(iv)
    case Err(x) =>
      ObjectPrefix([], ik, iv, k + [Colon] + v);
    case Ok(cs) =>
      PrefixThenLastEntry(ik, iv, cs, k, v);
      if Expand(v).Ok? {
        MakeEntriesSnoc(keys, cs, Expand(v).value);
      }
  }

  /**
   * `{k1: v1, ..., kn: vn}`, with or without a trailing comma, expands to
   * one insert per entry, in source order, with the key tokens as written
   * (parentheses removed from a fully parenthesised key).
   */
  lemma MapLiteral(keys: seq<seq<Tok>>, vals: seq<seq<Tok>>, trailing: bool)
    requires |keys| == |vals| >= 1
    requires forall i :: 0 <= i < |keys| ==> IsExpression(keys[i]) && IsElement(vals[i])
    ensures Expand([Brace(JoinCommas(EntryRuns(keys, vals)) + (if trailing then [Comma] else []))]) ==
      match ExpandAll(vals) case Err(x) => Err(x) case Ok(cs) => Ok(MapCode(MakeEntries(keys, cs)))
  {
    var runs := EntryRuns(keys, vals);
    var inner := JoinCommas(runs) + (if trailing then [Comma] else []);
    assert inner != [] by {
      if |runs| >= 2 {
        assert JoinCommas(runs) == runs[0] + [Comma] + JoinCommas(runs[1..]);
      }
    }
    ObjectLiteralIsMunched(inner);
    if trailing {
      ObjectOfTerminatedList(keys, vals);
      JoinThenComma(runs);
    } else {
      ObjectOfJoinedList(keys, vals);
      AppendEmpty(JoinCommas(runs));
    }
  }

  /** `(k): v` is read exactly like `k: v`. */
  lemma ParenthesizedKey(k: seq<Tok>, rest: seq<Tok>)
    requires IsExpression(k)
    requires !(|k| == 1 && k[0].Paren? && IsExpression(k[0].inner))
    ensures Expand([Brace([Paren(k), Colon] + rest)]) == Expand([Brace(k + [Colon] + rest)])
  {
    assert [Paren(k), Colon] + rest == [Paren(k)] + [Colon] + rest;
    ObjectLiteralIsMunched([Paren(k), Colon] + rest);
    ObjectLiteralIsMunched(k + [Colon] + rest);
    KeyRead([], [Paren(k)], rest);
    KeyRead([], k, rest);
  }

  /** The entries of a map literal carry its key tokens and its value codes, position by position. */
  lemma EntriesOfLiteral(env: Env, keys: seq<seq<Tok>>, vals: seq<seq<Tok>>)
    requires |keys| == |vals|
    requires ExpandAll(vals).Ok?
    ensures var es := MakeEntries(keys, ExpandAll(vals).value);
      forall j :: 0 <= j < |keys| ==>
        es[j].key == KeyTokens(keys[j]) && Run(env, es[j].value) == Build(env, vals[j])
  {
    ExpandAllMeaning(vals);
  }

  /** Every key of a map literal converts and every value builds. */
  predicate EveryEntryBuilds(env: Env, keys: seq<seq<Tok>>, vals: seq<seq<Tok>>)
    requires |keys| == |vals|
  {
    forall i :: 0 <= i < |keys| ==> KeyOf(env, KeyTokens(keys[i])).Ok? && Build(env, vals[i]).Ok?
  }

  /** The keys of `m` are exactly the converted keys of a map literal. */
  ghost predicate HasWrittenKeys(env: Env, keys: seq<seq<Tok>>, m: map<Value, Value>) {
    forall k :: k in m <==> exists i :: 0 <= i < |keys| && KeyOf(env, KeyTokens(keys[i])) == Ok(k)
  }

  /**
   * The value of `{k1: v1, ..., kn: vn}`: it is built exactly when every key
   * converts and every value builds, and its keys are the converted keys.
   */
  lemma MapLiteralBuild(env: Env, keys: seq<seq<Tok>>, vals: seq<seq<Tok>>, trailing: bool)
    requires |keys| == |vals| >= 1
    requires forall i :: 0 <= i < |keys| ==> IsExpression(keys[i]) && IsElement(vals[i])
    ensures var r := Build(env, [Brace(JoinCommas(EntryRuns(keys, vals)) + (if trailing then [Comma] else []))]);
      (r.Ok? <==> EveryEntryBuilds(env, keys, vals)) &&
      (r.Ok? ==> r.value.Map? && HasWrittenKeys(env, keys, r.value.entries))
  {
    MapLiteral(keys, vals, trailing);
    var r := Build(env, [Brace(JoinCommas(EntryRuns(keys, vals)) + (if trailing then [Comma] else []))]);
    if ExpandAll(vals).Err? {
      ExpandAllMeaning(vals);
      var j :| 0 <= j < |vals| && Expand(vals[j]).Err?;
      assert Build(env, vals[j]).Err?;
    } else {
      var es := MakeEntries(keys, ExpandAll(vals).value);
      assert r == Run(env, MapCode(es));
      LiteralEntriesRun(env, keys, vals);
    }
  }

  /** The inserts of a map literal, stated in terms of its keys and values. */
  lemma LiteralEntriesRun(env: Env, keys: seq<seq<Tok>>, vals: seq<seq<Tok>>)
    requires |keys| == |vals|
    requires ExpandAll(vals).Ok?
    ensures var r := RunEntries(env, map[], MakeEntries(keys, ExpandAll(vals).value));
      (r.Ok? <==> EveryEntryBuilds(env, keys, vals)) &&
      (r.Ok? ==> HasWrittenKeys(env, keys, r.value))
  {
    var es := MakeEntries(keys, ExpandAll(vals).value);
    EntriesOfLiteral(env, keys, vals);
    LiteralEntriesSucceed(env, keys, vals, es);
    var r := RunEntries(env, map[], es);
    if r.Ok? {
      LiteralEntriesKeys(env, keys, es, r.value);
    }
  }

  lemma LiteralEntriesSucceed(env: Env, keys: seq<seq<Tok>>, vals: seq<seq<Tok>>, es: seq<Entry>)
    requires |keys| == |vals| == |es|
    requires forall j :: 0 <= j < |keys| ==>
      es[j].key == KeyTokens(keys[j]) && Run(env, es[j].value) == Build(env, vals[j])
    ensures RunEntries(env, map[], es).Ok? <==> EveryEntryBuilds(env, keys, vals)
  {
    RunEntriesSucceeds(env, map[], es);
  }

  lemma LiteralEntriesKeys(env: Env, keys: seq<seq<Tok>>, es: seq<Entry>, m: map<Value, Value>)
    requires |keys| == |es|
    requires forall j :: 0 <= j < |keys| ==> es[j].key == KeyTokens(keys[j])
    requires RunEntries(env, map[], es) == Ok(m)
    ensures HasWrittenKeys(env, keys, m)
  {
    RunEntriesKeys(env, map[], es, m);
    forall k | k in m
      ensures exists i :: 0 <= i < |keys| && KeyOf(env, KeyTokens(keys[i])) == Ok(k)
    {
      var j :| 0 <= j < |es| && KeyOf(env, es[j].key) == Ok(k);
      assert KeyOf(env, KeyTokens(keys[j])) == Ok(k);
    }
    forall k | exists i :: 0 <= i < |keys| && KeyOf(env, KeyTokens(keys[i])) == Ok(k)
      ensures k in m
    {
      var i :| 0 <= i < |keys| && KeyOf(env, KeyTokens(keys[i])) == Ok(k);
      assert KeyOf(env, es[i].key) == Ok(k);
    }
  }

  /** Last write wins: the entry whose key no later entry repeats gives that key its value. */
  lemma MapLiteralLastWriteWins(env: Env, keys: seq<seq<Tok>>, vals: seq<seq<Tok>>, trailing: bool, i: nat)
    requires |keys| == |vals| >= 1
    requires forall j :: 0 <= j < |keys| ==> IsExpression(keys[j]) && IsElement(vals[j])
    requires Build(env, [Brace(JoinCommas(EntryRuns(keys, vals)) + (if trailing then [Comma] else []))]).Ok?
    requires i < |keys|
    requires forall l :: i < l < |keys| ==> KeyOf(env, KeyTokens(keys[l])) != KeyOf(env, KeyTokens(keys[i]))
    ensures var r := Build(env, [Brace(JoinCommas(EntryRuns(keys, vals)) + (if trailing then [Comma] else []))]);
      r.value.Map? && KeyOf(env, KeyTokens(keys[i])).Ok? && Build(env, vals[i]).Ok? &&
      KeyOf(env, KeyTokens(keys[i])).value in r.value.entries &&
      r.value.entries[KeyOf(env, KeyTokens(keys[i])).value] == Build(env, vals[i]).value
  {
    MapLiteral(keys, vals, trailing);
    var es := MakeEntries(keys, ExpandAll(vals).value);
    EntriesOfLiteral(env, keys, vals);
    var r := Build(env, [Brace(JoinCommas(EntryRuns(keys, vals)) + (if trailing then [Comma] else []))]);
    RunEntriesLastWriteWins(env, map[], es, r.value.entries, i);
  }

  // ---------------------------------------------------------------------
  // Malformed maps
  // ---------------------------------------------------------------------

  /** The entries before a fault are read, then the fault's rule applies to what is left. */
  lemma MapAfterEntries(keys: seq<seq<Tok>>, vals: seq<seq<Tok>>, tail: seq<Tok>)
    requires |keys| == |vals|
    requires forall i :: 0 <= i < |keys| ==> IsExpression(keys[i]) && IsElement(vals[i])
    requires ExpandAll(vals).Ok?
    requires tail != []
    ensures var inner := ListPrefix(EntryRuns(keys, vals)) + tail;
      var r := ObjectKey(MakeEntries(keys, ExpandAll(vals).value), [], tail);
      Expand([Brace(inner)]) == if r.Err? then Err(r.error) else Ok(MapCode(r.value))
  {
    var inner := ListPrefix(EntryRuns(keys, vals)) + tail;
    ObjectLiteralIsMunched(inner);
    ObjectPrefix([], keys, vals, tail);
    AppendEmpty(MakeEntries(keys, ExpandAll(vals).value));
  }

  /** A literal value followed by anything but a comma. */
  lemma ValueThenJunk(entries: seq<Entry>, key: seq<Tok>, t: Tok, x: Tok, rest: seq<Tok>)
    requires key != []
    requires IsLiteralToken(t) && Expand([t]).Ok?
    requires !x.Comma?
    ensures ObjectKey(entries, key, [Colon] + ([t, x] + rest)) == Err(UnexpectedToken(x))
  {
    var ts := [Colon] + ([t, x] + rest);
    assert ts[1] == t && ts[2..] == [x] + rest && ([x] + rest)[0] == x;
    assert Expand([t]) == ExpandLiteral(t);
  }

  /** A token after a complete literal value, other than a comma, is refused. */
  lemma ObjectUnexpectedToken(keys: seq<seq<Tok>>, vals: seq<seq<Tok>>, k: seq<Tok>, t: Tok, x: Tok, rest: seq<Tok>)
    requires |keys| == |vals|
    requires forall i :: 0 <= i < |keys| ==> IsExpression(keys[i]) && IsElement(vals[i])
    requires ExpandAll(vals).Ok?
    requires IsExpression(k)
    requires IsLiteralToken(t) && Expand([t]).Ok?
    requires !x.Comma?
    ensures Expand([Brace(ListPrefix(EntryRuns(keys, vals)) + k + [Colon, t, x] + rest)]) == Err(UnexpectedToken(x))
  {
    var p := ListPrefix(EntryRuns(keys, vals));
    RegroupEntry(p, k, [t, x], rest);
    assert [Colon] + [t, x] == [Colon, t, x];
    MapAfterEntries(keys, vals, k + [Colon] + ([t, x] + rest));
    var es := MakeEntries(keys, ExpandAll(vals).value);
    KeyRead(es, k, [t, x] + rest);
    ValueThenJunk(es, KeyTokens(k), t, x, rest);
  }

  /** A key whose colon has no value after it, or a key with neither colon nor value, is refused. */
  lemma ObjectMissingValue(keys: seq<seq<Tok>>, vals: seq<seq<Tok>>, k: seq<Tok>, colon: bool)
    requires |keys| == |vals|
    requires forall i :: 0 <= i < |keys| ==> IsExpression(keys[i]) && IsElement(vals[i])
    requires ExpandAll(vals).Ok?
    requires IsExpression(k)
    ensures Expand([Brace(ListPrefix(EntryRuns(keys, vals)) + k + (if colon then [Colon] else []))]) == Err(MissingValue)
  {
    var tail := k + (if colon then [Colon] else []);
    AppendAssoc(ListPrefix(EntryRuns(keys, vals)), k, if colon then [Colon] else []);
    MapAfterEntries(keys, vals, tail);
    var es := MakeEntries(keys, ExpandAll(vals).value);
    if colon {
      AppendEmpty(tail);
      AppendEmpty([Colon]);
      KeyRead(es, k, []);
      ColonAtEnd(es, KeyTokens(k));
    } else {
      AppendEmpty(k);
      KeyMunch(es, [], k, []);
    }
  }

  /** A colon that ends the tokens. */
  lemma ColonAtEnd(entries: seq<Entry>, key: seq<Tok>)
    requires key != []
    ensures ObjectKey(entries, key, [Colon]) == Err(MissingValue)
  {
    assert [Colon][1..] == [] && [Colon][1..1] == [];
  }

  /** A colon where a key should start is refused. */
  lemma ObjectMisplacedColon(keys: seq<seq<Tok>>, vals: seq<seq<Tok>>, rest: seq<Tok>)
    requires |keys| == |vals|
    requires forall i :: 0 <= i < |keys| ==> IsExpression(keys[i]) && IsElement(vals[i])
    requires ExpandAll(vals).Ok?
    ensures Expand([Brace(ListPrefix(EntryRuns(keys, vals)) + [Colon] + rest)]) == Err(MisplacedColon)
  {
    AppendAssoc(ListPrefix(EntryRuns(keys, vals)), [Colon], rest);
    MapAfterEntries(keys, vals, [Colon] + rest);
  }

  /** A comma before the key's colon (also a comma where a key should start) is refused. */
  lemma ObjectCommaInKey(keys: seq<seq<Tok>>, vals: seq<seq<Tok>>, k: seq<Tok>, rest: seq<Tok>)
    requires |keys| == |vals|
    requires forall i :: 0 <= i < |keys| ==> IsExpression(keys[i]) && IsElement(vals[i])
    requires ExpandAll(vals).Ok?
    requires k == [] || IsExpression(k)
    ensures Expand([Brace(ListPrefix(EntryRuns(keys, vals)) + k + [Comma] + rest)]) == Err(CommaInKey)
  {
    var p := ListPrefix(EntryRuns(keys, vals));
    Regroup(p, k, [Comma], rest);
    AppendAssoc(k, [Comma], rest);
    MapAfterEntries(keys, vals, k + ([Comma] + rest));
    var es := MakeEntries(keys, ExpandAll(vals).value);
    KeyMunch(es, [], k, [Comma] + rest);
    AppendEmpty(k);
  }

  /** A value that runs into a colon is no expression. */
  lemma ValueWithColon(entries: seq<Entry>, key: seq<Tok>, e: seq<Tok>, rest: seq<Tok>)
    requires key != []
    requires IsExpression(e) && !IsLiteralToken(e[0])
    ensures ObjectKey(entries, key, [Colon] + (e + [Colon] + rest)) == Err(ExpectedExpression(e + [Colon] + rest))
  {
    var v := e + [Colon] + rest;
    var ts := [Colon] + v;
    assert ts[1..] == v && ts[1] == e[0];
    assert v == (e + [Colon]) + rest;
    CommaIndexAfterRun(e + [Colon], rest);
    var i := CommaIndex(v);
    assert ts[1..1 + i] == v[..i];
    assert v[..i][|e|] == Colon;
  }

  /** A value expression followed by a colon is refused. */
  lemma ObjectColonAfterValue(keys: seq<seq<Tok>>, vals: seq<seq<Tok>>, k: seq<Tok>, e: seq<Tok>, rest: seq<Tok>)
    requires |keys| == |vals|
    requires forall i :: 0 <= i < |keys| ==> IsExpression(keys[i]) && IsElement(vals[i])
    requires ExpandAll(vals).Ok?
    requires IsExpression(k)
    requires IsExpression(e) && !IsLiteralToken(e[0])
    ensures Expand([Brace(ListPrefix(EntryRuns(keys, vals)) + k + [Colon] + e + [Colon] + rest)]) ==
      Err(ExpectedExpression(e + [Colon] + rest))
  {
    var p := ListPrefix(EntryRuns(keys, vals));
    var v := e + [Colon] + rest;
    assert p + k + [Colon] + e + [Colon] + rest == p + (k + [Colon] + v) by {
      Regroup(p + k + [Colon], e, [Colon], rest);
      Regroup(p, k, [Colon], v);
    }
    MapAfterEntries(keys, vals, k + [Colon] + v);
    var es := MakeEntries(keys, ExpandAll(vals).value);
    KeyRead(es, k, v);
    ValueWithColon(es, KeyTokens(k), e, rest);
  }

  // ---------------------------------------------------------------------
  // Concrete literals
  // ---------------------------------------------------------------------

  /** `{k: v1, k: v2}` holds the one key, with the later value. */
  lemma DuplicateKeyLastWins(env: Env, k: seq<Tok>, v1: seq<Tok>, v2: seq<Tok>)
    requires IsExpression(k) && IsElement(v1) && IsElement(v2)
    requires Build(env, [Brace(k + [Colon] + v1 + [Comma] + k + [Colon] + v2)]).Ok?
    ensures KeyOf(env, KeyTokens(k)).Ok? && Build(env, v2).Ok?
    ensures Build(env, [Brace(k + [Colon] + v1 + [Comma] + k + [Colon] + v2)]) ==
      Ok(Map(map[KeyOf(env, KeyTokens(k)).value := Build(env, v2).value]))
  {
    var keys, vals := [k, k], [v1, v2];
    TwoEntries(k, v1, v2);
    MapLiteralBuild(env, keys, vals, false);
    MapLiteralLastWriteWins(env, keys, vals, false, 1);
    var m := Build(env, [Brace(k + [Colon] + v1 + [Comma] + k + [Colon] + v2)]).value.entries;
    var key := KeyOf(env, KeyTokens(k)).value;
    forall x ensures x in m <==> x == key {
      if x in m {
        var i :| 0 <= i < |keys| && KeyOf(env, KeyTokens(keys[i])) == Ok(x);
        PairIndex(k, i);
      }
      if x == key {
        assert KeyOf(env, KeyTokens(keys[0])) == Ok(x);
      }
    }
    SingleKeyMap(m, key, Build(env, v2).value);
  }

  /**
   * A key that already has type `Value` is inserted unchanged, whatever its
   * variant: `{(k): v}` with `k` holding `Unit`, a `Seq` or a `Map`.
   */
  lemma ValueAsKey(env: Env, k: seq<Tok>, v: seq<Tok>, kv: Value)
    requires IsExpression(k) && IsElement(v)
    requires env.key(KeyTokens(k)) == Some(Already(kv))
    requires Build(env, v).Ok?
    ensures Build(env, [Brace(k + [Colon] + v)]) == Ok(Map(map[kv := Build(env, v).value]))
  {
    var keys, vals := [k], [v];
    assert EntryRuns(keys, vals) == [k + [Colon] + v];
    assert JoinCommas(EntryRuns(keys, vals)) + [] == k + [Colon] + v;
    MapLiteralBuild(env, keys, vals, false);
    MapLiteralLastWriteWins(env, keys, vals, false, 0);
    var m := Build(env, [Brace(k + [Colon] + v)]).value.entries;
    forall x ensures x in m <==> x == kv {
      if x in m {
        var i :| 0 <= i < |keys| && KeyOf(env, KeyTokens(keys[i])) == Ok(x);
      }
    }
    SingleKeyMap(m, kv, Build(env, v).value);
  }

  lemma TwoEntries(k: seq<Tok>, v1: seq<Tok>, v2: seq<Tok>)
    ensures JoinCommas(EntryRuns([k, k], [v1, v2])) + [] == k + [Colon] + v1 + [Comma] + k + [Colon] + v2
  {
    assert EntryRuns([k, k], [v1, v2]) == [k + [Colon] + v1, k + [Colon] + v2];
    assert JoinCommas([k + [Colon] + v1, k + [Colon] + v2]) == k + [Colon] + v1 + [Comma] + (k + [Colon] + v2);
  }

  /** `{"a":}` misses its value; `{"a", "b": 1}` has a comma inside its first key. */
  lemma MalformedMapExamples()
    ensures Expand([Brace([Atom("\"a\""), Colon])]) == Err(MissingValue)
    ensures Expand([Brace([Atom("\"a\""), Comma, Atom("\"b\""), Colon, Atom("1")])]) == Err(CommaInKey)
  {
    ObjectMissingValue([], [], [Atom("\"a\"")], true);
    assert ListPrefix(EntryRuns([], [])) + [Atom("\"a\"")] + [Colon] == [Atom("\"a\""), Colon];
    ObjectCommaInKey([], [], [Atom("\"a\"")], [Atom("\"b\""), Colon, Atom("1")]);
    assert ListPrefix(EntryRuns([], [])) + [Atom("\"a\"")] + [Comma] + [Atom("\"b\""), Colon, Atom("1")] ==
      [Atom("\"a\""), Comma, Atom("\"b\""), Colon, Atom("1")];
  }

  // ---------------------------------------------------------------------
  // Sequence and map algebra used by the proofs above
  // ---------------------------------------------------------------------

  lemma AppendAssoc<T>(a: seq<T>, b: seq<T>, c: seq<T>)
    ensures a + b + c == a + (b + c)
  {
  }

  lemma Regroup<T>(p: seq<T>, a: seq<T>, b: seq<T>, c: seq<T>)
    ensures p + a + b + c == p + (a + b + c)
  {
  }

  lemma RegroupEntry(p: seq<Tok>, k: seq<Tok>, v: seq<Tok>, rest: seq<Tok>)
    ensures p + k + ([Colon] + v) + rest == p + (k + [Colon] + (v + rest))
  {
  }

  lemma AppendEmpty<T>(a: seq<T>)
    ensures a + [] == a && [] + a == a
  {
  }

  lemma SplitLast<T>(a: seq<T>)
    requires |a| >= 1
    ensures a == a[..|a| - 1] + [a[|a| - 1]]
  {
  }

  lemma PairIndex<T>(a: T, i: int)
    requires 0 <= i < 2
    ensures [a, a][i] == a
  {
  }

  lemma SingleKeyMap<K, V>(m: map<K, V>, key: K, val: V)
    requires forall x :: x in m <==> x == key
    requires key in m && m[key] == val
    ensures m == map[key := val]
  {
  }
}
