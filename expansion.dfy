/**
 * Expansion of the `value!` macro (src/macros.rs): the rules of
 * `value_internal!`, tried in their order, turning a token tree into the
 * code the macro generates, or into the reason it refuses the literal.
 * Running the generated code is the Evaluation module.
 */
module Expansion {
  import opened Results
  import opened Tokens

  /** Why a literal fails. The first six arise at expansion time, the last when the code runs. */
  datatype Error =
    | UnexpectedToken(token: Tok)          // a token after a complete element or entry
    | MissingValue                         // a key whose value (or colon and value) never comes
    | MisplacedColon                       // a colon where a key should start
    | CommaInKey                           // a comma while a key is being read
    | ExpectedExpression(tokens: seq<Tok>) // a colon followed by something that is no value
    | NoRuleMatches(tokens: seq<Tok>)      // no rule of the macro accepts these tokens
    | ConversionFailed(expr: seq<Tok>)     // an expression could not be turned into the value it stands for

  /** The code a literal expands to. */
  datatype Code =
    | UnitCode                              // Value::Unit
    | BoolCode(b: bool)                     // Value::Bool(b)
    | BytesCode(elements: seq<seq<Tok>>)    // Value::Bytes(vec![e1, ..., en])
    | SeqCode(items: seq<Code>)             // Value::Seq(vec![...])
    | MapCode(entries: seq<Entry>)          // a fresh map, one insert per entry, in order
    | ToValueCode(expr: seq<Tok>)           // to_value(&expr).unwrap()

  /** `object.insert((key).into(), value)` */
  datatype Entry = Entry(key: seq<Tok>, value: Code)

  /** `value!(tokens)`: the main rules, lines 186-232. */
  function Expand(ts: seq<Tok>): Result<Code, Error>
    decreases ts, 3
  {
    if |ts| == 1 && IsLiteralToken(ts[0]) then ExpandLiteral(ts[0])
    else if IsExpression(ts) then Ok(ToValueCode(ts))
    else Err(NoRuleMatches(ts))
  }

  /** The main rules for a single literal token: null, true, false, [...] and {...}. */
  function ExpandLiteral(t: Tok): Result<Code, Error>
    requires IsLiteralToken(t)
    decreases t, 2
  {
    match t
    case Null => Ok(UnitCode)
    case True => Ok(BoolCode(true))
    case False => Ok(BoolCode(false))
    case Bracket(inner) => ExpandBracket(inner)
    case Brace(inner) => ExpandBrace(inner)
  }

  /** The element runs of `[[e1, ..., en]]` when its contents are a comma-separated list of expressions. */
  function ByteElements(b: seq<Tok>): Option<seq<seq<Tok>>> {
    if b == [] then Some([])
    else
      var runs := SplitCommas(b);
      if forall k :: 0 <= k < |runs| ==> IsExpression(runs[k]) then Some(runs) else None
  }

  /** `[[e1, ..., en,]]` with at least one element and a trailing comma. */
  predicate IsTupleShape(b: seq<Tok>) {
    |b| >= 2 && b[|b| - 1].Comma? && ByteElements(b[..|b| - 1]).Some?
  }

  /** `[ ... ]`: the byte-string rules first, then the empty and the general array. */
  function ExpandBracket(inner: seq<Tok>): Result<Code, Error>
    decreases inner, 1
  {
    if |inner| == 1 && inner[0].Bracket? && ByteElements(inner[0].inner).Some? then
      Ok(BytesCode(ByteElements(inner[0].inner).value))
    else if |inner| == 1 && inner[0].Bracket? && IsTupleShape(inner[0].inner) then
      // value!(( e1, ..., en )): a parenthesised group is only ever an expression
      var b := inner[0].inner;
      Ok(ToValueCode([Paren(b[..|b| - 1])]))
    else if inner == [] then Ok(SeqCode([]))
    else
      match ExpandArray([], false, inner)
      case Ok(items) => Ok(SeqCode(items))
      case Err(e) => Err(e)
  }

  /** `{ ... }`: the empty map, or the entries read by the object muncher. */
  function ExpandBrace(inner: seq<Tok>): Result<Code, Error>
    decreases inner, 1
  {
    if inner == [] then Ok(MapCode([]))
    else
      match ObjectKey([], [], inner)
      case Ok(entries) => Ok(MapCode(entries))
      case Err(e) => Err(e)
  }

  /**
   * The `@array` muncher. `items` are the elements read so far; `trailing`
   * says that a comma followed the last of them. An empty accumulator fits
   * both the rules that want a comma-terminated list and those that want a
   * list without one.
   */
  function ExpandArray(items: seq<Code>, trailing: bool, rest: seq<Tok>): Result<seq<Code>, Error>
    decreases rest, 0
  {
    if rest == [] then Ok(items)
    else
      var expectsElement := |items| == 0 || trailing;
      var expectsComma := |items| == 0 || !trailing;
      var i := CommaIndex(rest);
      if expectsElement && IsLiteralToken(rest[0]) then
        match ExpandLiteral(rest[0])
        case Err(e) => Err(e)
        case Ok(c) => ExpandArray(items + [c], false, rest[1..])
      else if expectsElement && IsExpression(rest[..i]) then
        if i < |rest| then ExpandArray(items + [ToValueCode(rest[..i])], true, rest[i + 1..])
        else Ok(items + [ToValueCode(rest)])
      else if expectsComma && rest[0].Comma? then ExpandArray(items, true, rest[1..])
      else if expectsComma then Err(UnexpectedToken(rest[0]))
      else Err(NoRuleMatches(rest))
  }

  /**
   * The `@object` muncher while it reads a key: `key` holds the key tokens
   * munched so far, `entries` the entries already inserted.
   */
  function ObjectKey(entries: seq<Entry>, key: seq<Tok>, rest: seq<Tok>): Result<seq<Entry>, Error>
    decreases rest, 0
  {
    if rest == [] then
      if key == [] then Ok(entries) else Err(MissingValue)
    else if key != [] && rest[0].Colon? then
      var i := CommaIndex(rest[1..]);
      if |rest| >= 2 && IsLiteralToken(rest[1]) then
        match ExpandLiteral(rest[1])
        case Err(e) => Err(e)
        case Ok(c) => ObjectEntry(entries, key, c, rest[2..])
      else if IsExpression(rest[1..1 + i]) then
        ObjectEntry(entries, key, ToValueCode(rest[1..1 + i]), rest[1 + i..])
      else if |rest| == 1 then Err(MissingValue)
      else Err(ExpectedExpression(rest[1..]))
    else if rest[0].Colon? then Err(MisplacedColon)
    else if rest[0].Comma? then Err(CommaInKey)
    else if key == [] && rest[0].Paren? && |rest| >= 2 && rest[1].Colon? && IsExpression(rest[0].inner) then
      ObjectKey(entries, rest[0].inner, rest[1..])
    else ObjectKey(entries, key + [rest[0]], rest[1..])
  }

  /** The `@object` muncher once an entry's value is read: insert it, then a comma or the end must follow. */
  function ObjectEntry(entries: seq<Entry>, key: seq<Tok>, value: Code, rest: seq<Tok>): Result<seq<Entry>, Error>
    decreases rest, 0
  {
    if rest == [] then Ok(entries + [Entry(key, value)])
    else if rest[0].Comma? then ObjectKey(entries + [Entry(key, value)], [], rest[1..])
    else Err(UnexpectedToken(rest[0]))
  }

  // ---------------------------------------------------------------------
  // The munchers only ever append: what was read is kept, in order
  // ---------------------------------------------------------------------

  /** A result that extends `xs + ys` extends `xs`. */
  lemma PrefixOfExtension<T>(xs: seq<T>, ys: seq<T>, r: Result<seq<T>, Error>)
    requires r.Ok? ==> |xs + ys| <= |r.value| && r.value[..|xs + ys|] == xs + ys
    ensures r.Ok? ==> |xs| <= |r.value| && r.value[..|xs|] == xs
  {
    if r.Ok? {
      assert r.value[..|xs|] == r.value[..|xs + ys|][..|xs|];
    }
  }

  /** The elements an array literal yields start with those already read. */
  lemma {:induction false} ArrayKeepsItems(items: seq<Code>, trailing: bool, rest: seq<Tok>)
    ensures var r := ExpandArray(items, trailing, rest);
      r.Ok? ==> |items| <= |r.value| && r.value[..|items|] == items
    decreases rest
  {
    if rest != [] {
      var expectsElement := |items| == 0 || trailing;
      var expectsComma := |items| == 0 || !trailing;
      var i := CommaIndex(rest);
      if expectsElement && IsLiteralToken(rest[0]) {
        match ExpandLiteral(rest[0])
        case Err(_) =>
        case Ok(c) =>
          ArrayKeepsItems(items + [c], false, rest[1..]);
          PrefixOfExtension(items, [c], ExpandArray(items + [c], false, rest[1..]));
      } else if expectsElement && IsExpression(rest[..i]) {
        var c := ToValueCode(rest[..i]);
        if i < |rest| {
          ArrayKeepsItems(items + [c], true, rest[i + 1..]);
          PrefixOfExtension(items, [c], ExpandArray(items + [c], true, rest[i + 1..]));
        } else {
          assert (items + [ToValueCode(rest)])[..|items|] == items;
        }
      } else if expectsComma && rest[0].Comma? {
        ArrayKeepsItems(items, true, rest[1..]);
      }
    }
  }

  /** The entries a map literal yields start with those already inserted. */
  lemma {:induction false} ObjectKeyKeepsEntries(entries: seq<Entry>, key: seq<Tok>, rest: seq<Tok>)
    ensures var r := ObjectKey(entries, key, rest);
      r.Ok? ==> |entries| <= |r.value| && r.value[..|entries|] == entries
    decreases rest
  {
    if rest != [] {
      if key != [] && rest[0].Colon? {
        var i := CommaIndex(rest[1..]);
        if |rest| >= 2 && IsLiteralToken(rest[1]) {
          match ExpandLiteral(rest[1])
          case Err(_) =>
          case Ok(c) =>
            ObjectEntryKeepsEntries(entries, key, c, rest[2..]);
            PrefixOfExtension(entries, [Entry(key, c)], ObjectEntry(entries, key, c, rest[2..]));
        } else if IsExpression(rest[1..1 + i]) {
          var c := ToValueCode(rest[1..1 + i]);
          ObjectEntryKeepsEntries(entries, key, c, rest[1 + i..]);
          PrefixOfExtension(entries, [Entry(key, c)], ObjectEntry(entries, key, c, rest[1 + i..]));
        }
      } else if !rest[0].Colon? && !rest[0].Comma? {
        if key == [] && rest[0].Paren? && |rest| >= 2 && rest[1].Colon? && IsExpression(rest[0].inner) {
          ObjectKeyKeepsEntries(entries, rest[0].inner, rest[1..]);
        } else {
          ObjectKeyKeepsEntries(entries, key + [rest[0]], rest[1..]);
        }
      }
    }
  }

  /** Reading past an entry's value keeps the entries before it and inserts it next. */
  lemma {:induction false} ObjectEntryKeepsEntries(entries: seq<Entry>, key: seq<Tok>, value: Code, rest: seq<Tok>)
    ensures var r := ObjectEntry(entries, key, value, rest);
      r.Ok? ==> |entries| + 1 <= |r.value| && r.value[..|entries| + 1] == entries + [Entry(key, value)]
    decreases rest
  {
    if rest != [] && rest[0].Comma? {
      ObjectKeyKeepsEntries(entries + [Entry(key, value)], [], rest[1..]);
    }
  }
}
