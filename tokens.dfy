/**
 * Token trees as the `value!` macro receives them, and the comma-separated
 * runs its rules are written in terms of.
 */
module Tokens {

  /**
   * One token tree. Delimited groups carry their contents; every leaf that
   * the grammar does not name is an opaque Atom (an identifier, a literal,
   * an operator). The tokenizer is assumed to give `null`, `true`, `false`,
   * `,` and `:` their own tokens, so an Atom never spells one of them; the
   * model does not check its text.
   */
  datatype Tok =
    | Null
    | True
    | False
    | Comma
    | Colon
    | Bracket(inner: seq<Tok>)
    | Brace(inner: seq<Tok>)
    | Paren(inner: seq<Tok>)
    | Atom(text: string)

  /** The tokens matched ahead of the expression rules inside arrays and maps. */
  predicate IsLiteralToken(t: Tok) {
    t.Null? || t.True? || t.False? || t.Bracket? || t.Brace?
  }

  predicate NoComma(ts: seq<Tok>) {
    forall i :: 0 <= i < |ts| ==> !ts[i].Comma?
  }

  /**
   * What a `$x:expr` fragment accepts, approximated: a non-empty run of
   * tokens with no comma or colon at the top level.
   */
  predicate IsExpression(ts: seq<Tok>) {
    |ts| > 0 && forall i :: 0 <= i < |ts| ==> !ts[i].Comma? && !ts[i].Colon?
  }

  /** The position of the first top-level comma, or |ts| when there is none. */
  function CommaIndex(ts: seq<Tok>): (i: nat)
    ensures i <= |ts|
    ensures NoComma(ts[..i])
    ensures i < |ts| ==> ts[i].Comma?
  {
    if ts == [] then 0
    else if ts[0].Comma? then 0
    else
      var j := CommaIndex(ts[1..]);
      assert ts[..j + 1] == [ts[0]] + ts[1..][..j];
      j + 1
  }

  /** A run without commas, followed by nothing or by a comma, ends at its own length. */
  lemma {:induction false} CommaIndexOfRun(run: seq<Tok>, rest: seq<Tok>)
    requires NoComma(run)
    requires rest == [] || rest[0].Comma?
    ensures CommaIndex(run + rest) == |run|
  {
    if run != [] {
      assert (run + rest)[1..] == run[1..] + rest;
      CommaIndexOfRun(run[1..], rest);
    }
  }

  /** The first comma after a run without commas is found by searching past the run. */
  lemma {:induction false} CommaIndexAfterRun(run: seq<Tok>, rest: seq<Tok>)
    requires NoComma(run)
    ensures CommaIndex(run + rest) == |run| + CommaIndex(rest)
  {
    if run != [] {
      assert (run + rest)[1..] == run[1..] + rest;
      CommaIndexAfterRun(run[1..], rest);
    } else {
      assert run + rest == rest;
    }
  }

  /** `e1 , e2 , ... , en`: the runs joined by commas, without a trailing comma. */
  function JoinCommas(runs: seq<seq<Tok>>): seq<Tok> {
    if |runs| == 0 then []
    else if |runs| == 1 then runs[0]
    else runs[0] + [Comma] + JoinCommas(runs[1..])
  }

  /** `e1 , e2 , ... , en ,`: every run followed by a comma. */
  function ListPrefix(runs: seq<seq<Tok>>): seq<Tok> {
    if runs == [] then [] else runs[0] + [Comma] + ListPrefix(runs[1..])
  }

  /** The runs between top-level commas; `$( $e ),*` matches exactly these. */
  function SplitCommas(ts: seq<Tok>): (runs: seq<seq<Tok>>)
    ensures |runs| >= 1
    ensures forall k :: 0 <= k < |runs| ==> NoComma(runs[k])
    decreases |ts|
  {
    var i := CommaIndex(ts);
    if i == |ts| then [ts] else [ts[..i]] + SplitCommas(ts[i + 1..])
  }

  /** A run without commas, then a comma, splits off as the first run. */
  lemma SplitAfterRun(run: seq<Tok>, tail: seq<Tok>)
    requires NoComma(run)
    ensures SplitCommas(run + ([Comma] + tail)) == [run] + SplitCommas(tail)
  {
    var ts := run + ([Comma] + tail);
    CommaIndexOfRun(run, [Comma] + tail);
    assert ts[..|run|] == run;
    assert ts[|run| + 1..] == tail;
  }

  /** Splitting what was joined gives the runs back. */
  lemma {:induction false} SplitJoin(runs: seq<seq<Tok>>)
    requires |runs| >= 1
    requires forall k :: 0 <= k < |runs| ==> NoComma(runs[k])
    ensures SplitCommas(JoinCommas(runs)) == runs
  {
    if |runs| == 1 {
      CommaIndexOfRun(runs[0], []);
      assert runs[0] + [] == runs[0];
    } else {
      assert JoinCommas(runs) == runs[0] + ([Comma] + JoinCommas(runs[1..]));
      SplitAfterRun(runs[0], JoinCommas(runs[1..]));
      SplitJoin(runs[1..]);
      assert runs == [runs[0]] + runs[1..];
    }
  }

  /** A joined list followed by a comma is the list with every run comma-terminated. */
  lemma {:induction false} JoinThenComma(runs: seq<seq<Tok>>)
    requires |runs| >= 1
    ensures JoinCommas(runs) + [Comma] == ListPrefix(runs)
  {
    if |runs| == 1 {
      assert runs[1..] == [];
    } else {
      JoinThenComma(runs[1..]);
    }
  }

  /** A joined list is the comma-terminated prefix of all but its last run, then the last run. */
  lemma {:induction false} JoinIsPrefixThenLast(runs: seq<seq<Tok>>)
    requires |runs| >= 1
    ensures JoinCommas(runs) == ListPrefix(runs[..|runs| - 1]) + runs[|runs| - 1]
  {
    if |runs| == 1 {
      assert runs[..0] == [];
    } else {
      JoinIsPrefixThenLast(runs[1..]);
      assert runs[1..][..|runs| - 2] == runs[1..|runs| - 1];
      assert runs[..|runs| - 1] == [runs[0]] + runs[1..|runs| - 1];
      assert ListPrefix(runs[..|runs| - 1]) == runs[0] + [Comma] + ListPrefix(runs[1..|runs| - 1]);
    }
  }
}
