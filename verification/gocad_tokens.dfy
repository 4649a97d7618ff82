/** `GocadTSurfReader.splitStringToDoubles`, over the tokens the split produces.
    Number parsing is not modelled: each token is given as parsed or not. */
module GocadTokens {

  /** One token of `s.trim().split("[\\s,]+")`: a number `Double.parseDouble`
      accepts, or one it rejects. Splitting a blank string yields a single empty
      token, which is `Unparseable`. */
  datatype Token = Number(value: real) | Unparseable

  /** The loop as written: the index is advanced before the token is parsed, so
      an unparseable token still claims its slot (left at 0.0), the index always
      reaches the slots length, and the slots is returned whole. */
  method SplitToDoublesAsWritten(tokens: seq<Token>) returns (r: seq<real>)
    ensures |r| == |tokens|
    ensures forall k :: 0 <= k < |tokens| ==> r[k] == (if tokens[k].Number? then tokens[k].value else 0.0)
    ensures r == AsWrittenValues(tokens)
  {
    var slots := seq(|tokens|, _ => 0.0);
    var i := 0;
    for n := 0 to |tokens|
      invariant i == n
      invariant |slots| == |tokens|
      invariant forall k :: 0 <= k < n ==> slots[k] == (if tokens[k].Number? then tokens[k].value else 0.0)
      invariant forall k :: n <= k < |tokens| ==> slots[k] == 0.0
    {
      var slot := i;
      i := i + 1;
      if tokens[n].Number? {
        slots := slots[slot := tokens[n].value];
      }
    }
    r := slots;
    if i != |slots| {
      // the shortening copy: unreachable, since i always ends at the length
      assert false;
    }
  }

  /** The slot a token fills in the loop as written. */
  function SlotValue(t: Token): real {
    if t.Number? then t.value else 0.0
  }

  /** The loop as written, as a value: one slot per token. */
  function AsWrittenValues(tokens: seq<Token>): seq<real> {
    seq(|tokens|, k requires 0 <= k < |tokens| => SlotValue(tokens[k]))
  }

  /** The values of the parseable tokens, in their original order: what the
      trailing `Arrays.copyOf(slots, i)` shows the loop is meant to return. */
  function SplitToDoubles(tokens: seq<Token>): (r: seq<real>)
    ensures |r| <= |tokens|
    decreases |tokens|
  {
    if |tokens| == 0 then []
    else (if tokens[0].Number? then [tokens[0].value] else []) + SplitToDoubles(tokens[1..])
  }

  /** Splitting distributes over concatenation, and a single token contributes its
      value or nothing: together these determine the function, so the parseable
      tokens appear in order and the rest are dropped. */
  lemma {:induction false} SplitToDoublesConcat(a: seq<Token>, b: seq<Token>)
    ensures SplitToDoubles(a + b) == SplitToDoubles(a) + SplitToDoubles(b)
    decreases |a|
  {
    if |a| == 0 {
      assert a + b == b;
    } else {
      var head := if a[0].Number? then [a[0].value] else [];
      assert (a + b)[0] == a[0];
      assert (a + b)[1..] == a[1..] + b;
      assert SplitToDoubles(a + b) == head + SplitToDoubles(a[1..] + b);
      SplitToDoublesConcat(a[1..], b);
      assert SplitToDoubles(a) == head + SplitToDoubles(a[1..]);
    }
  }

  lemma SplitToDoublesSingle(t: Token)
    ensures SplitToDoubles([t]) == (if t.Number? then [t.value] else [])
  {
    assert [t][1..] == [];
  }

  /** Every returned value comes from a parseable token. */
  lemma {:induction false} SplitToDoublesFromNumbers(tokens: seq<Token>, x: real)
    requires x in SplitToDoubles(tokens)
    ensures Number(x) in tokens
    decreases |tokens|
  {
    if tokens[0].Number? && x == tokens[0].value {
    } else {
      SplitToDoublesFromNumbers(tokens[1..], x);
    }
  }

  /** When every token parses, the loop as written and the intended result agree. */
  lemma {:induction false} AllNumbersKeepLength(tokens: seq<Token>)
    requires forall k :: 0 <= k < |tokens| ==> tokens[k].Number?
    ensures |SplitToDoubles(tokens)| == |tokens|
    ensures forall k :: 0 <= k < |tokens| ==> SplitToDoubles(tokens)[k] == tokens[k].value
    decreases |tokens|
  {
    if |tokens| > 0 {
      AllNumbersKeepLength(tokens[1..]);
    }
  }

  /** When every token parses, the intended result is exactly what the loop as
      written returns, so the two differ only on unparseable tokens. */
  lemma SplitsAgreeWhenAllParse(tokens: seq<Token>)
    requires forall k :: 0 <= k < |tokens| ==> tokens[k].Number?
    ensures SplitToDoubles(tokens) == AsWrittenValues(tokens)
  {
    AllNumbersKeepLength(tokens);
  }

  /** The discrepancy: for `1 x 2` the loop as written yields [1.0, 0.0, 2.0], where
      the intended result drops the unparseable token. */
  method AsWrittenKeepsUnparseableSlot() returns (asWritten: seq<real>, intended: seq<real>)
    ensures asWritten == [1.0, 0.0, 2.0]
    ensures intended == [1.0, 2.0]
  {
    var tokens := [Number(1.0), Unparseable, Number(2.0)];
    asWritten := SplitToDoublesAsWritten(tokens);
    assert tokens[1..] == [Unparseable, Number(2.0)];
    assert tokens[2..] == [Number(2.0)];
    intended := SplitToDoubles(tokens);
  }

  /** A blank column list (one empty token) gives [0.0] as written, and nothing
      as intended. */
  method AsWrittenBlankGivesZero() returns (asWritten: seq<real>, intended: seq<real>)
    ensures asWritten == [0.0]
    ensures intended == []
  {
    asWritten := SplitToDoublesAsWritten([Unparseable]);
    intended := SplitToDoubles([Unparseable]);
  }
}
