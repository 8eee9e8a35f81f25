/**
 * The scanner on texts of a known shape, for arbitrary tokens: the two-row matrix, the empty
 * literal, a row closed after an empty token, and a trailing token without terminator.
 */
module AlignMatrixExamples {
  import opened AlignMatrix

  /** A token: non-empty and free of '[', ' ', ',' and ']'. */
  predicate IsToken(t: string) {
    |t| > 0 && NoReservedChar(t)
  }

  lemma {:induction false} ScanFromAppend(st: ScanState, p: string, q: string)
    ensures ScanFrom(st, p + q) == ScanFrom(ScanFrom(st, p), q)
    decreases |q|
  {
    if q == [] {
      assert p + q == p;
    } else {
      var q' := q[..|q| - 1];
      assert (p + q)[..|p + q| - 1] == p + q';
      ScanFromAppend(st, p, q');
    }
  }

  /** Token characters only extend the pending token. */
  lemma {:induction false} ScanFromToken(st: ScanState, t: string)
    requires NoReservedChar(t)
    ensures ScanFrom(st, t) == ScanState(st.token + t, st.row, st.rows)
    decreases |t|
  {
    if t != [] {
      var t' := t[..|t| - 1];
      ScanFromToken(st, t');
      assert st.token + t' + [t[|t| - 1]] == st.token + t;
    }
  }

  lemma ScanFromChar(st: ScanState, c: char)
    ensures ScanFrom(st, [c]) == Step(st, c)
  {
  }

  /** The scanner after `p` followed by a one-character text `c`. */
  lemma ScanThenChar(st: ScanState, p: string, c: char)
    ensures ScanFrom(st, p + [c]) == Step(ScanFrom(st, p), c)
  {
    assert (p + [c])[..|p|] == p;
  }

  /** The scanner after `p` followed by a token `t`. */
  lemma ScanThenToken(st: ScanState, p: string, t: string)
    requires NoReservedChar(t)
    ensures ScanFrom(st, p + t) == ScanState(ScanFrom(st, p).token + t, ScanFrom(st, p).row, ScanFrom(st, p).rows)
  {
    ScanFromAppend(st, p, t);
    ScanFromToken(ScanFrom(st, p), t);
  }

  /** "[[a,b],[c,d]]" reads as the rows [a, b] and [c, d]. */
  lemma TwoRowsOfTwo(a: string, b: string, c: string, d: string)
    requires IsToken(a) && IsToken(b) && IsToken(c) && IsToken(d)
    ensures Rows("[[" + a + "," + b + "]" + "," + "[" + c + "," + d + "]" + "]") == [[a, b], [c, d]]
  {
    var s0 := "[[";
    assert Scan(s0) == Start by { ScanThenChar(Start, "[", '['); ScanFromChar(Start, '['); }
    var s1 := s0 + a;
    assert Scan(s1) == ScanState(a, [], []) by { ScanThenToken(Start, s0, a); assert "" + a == a; }
    var s2 := s1 + ",";
    assert Scan(s2) == ScanState("", [a], []) by { ScanThenChar(Start, s1, ','); }
    var s3 := s2 + b;
    assert Scan(s3) == ScanState(b, [a], []) by { ScanThenToken(Start, s2, b); assert "" + b == b; }
    var s4 := s3 + "]";
    assert Scan(s4) == ScanState("", [], [[a, b]]) by {
      ScanThenChar(Start, s3, ']');
      assert [a] + [b] == [a, b];
      assert [] + [[a, b]] == [[a, b]];
    }
    var s5 := s4 + ",";
    assert Scan(s5) == Scan(s4) by { ScanThenChar(Start, s4, ','); }
    var s6 := s5 + "[";
    assert Scan(s6) == Scan(s4) by { ScanThenChar(Start, s5, '['); }
    var s7 := s6 + c;
    assert Scan(s7) == ScanState(c, [], [[a, b]]) by { ScanThenToken(Start, s6, c); assert "" + c == c; }
    var s8 := s7 + ",";
    assert Scan(s8) == ScanState("", [c], [[a, b]]) by { ScanThenChar(Start, s7, ','); }
    var s9 := s8 + d;
    assert Scan(s9) == ScanState(d, [c], [[a, b]]) by { ScanThenToken(Start, s8, d); assert "" + d == d; }
    var s10 := s9 + "]";
    assert Scan(s10) == ScanState("", [], [[a, b], [c, d]]) by {
      ScanThenChar(Start, s9, ']');
      assert [c] + [d] == [c, d];
      assert [[a, b]] + [[c, d]] == [[a, b], [c, d]];
    }
    var s11 := s10 + "]";
    assert Scan(s11) == Scan(s10) by { ScanThenChar(Start, s10, ']'); }
  }

  /** The empty literal "[]" gives no rows. */
  lemma EmptyLiteral()
    ensures Rows("[" + "]") == []
  {
    ScanFromChar(Start, '[');
    ScanThenChar(Start, "[", ']');
  }

  /**
   * "[[a,],[b]]" gives the single row [a, b]: the ']' after an empty token does not close the
   * row, so `a` is carried into the row that `b` closes.
   */
  lemma EmptyTokenKeepsRowOpen(a: string, b: string)
    requires IsToken(a) && IsToken(b)
    ensures Rows("[[" + a + "," + "]" + "," + "[" + b + "]" + "]") == [[a, b]]
  {
    var s0 := "[[";
    assert Scan(s0) == Start by { ScanThenChar(Start, "[", '['); ScanFromChar(Start, '['); }
    var s1 := s0 + a;
    assert Scan(s1) == ScanState(a, [], []) by { ScanThenToken(Start, s0, a); assert "" + a == a; }
    var s2 := s1 + ",";
    assert Scan(s2) == ScanState("", [a], []) by { ScanThenChar(Start, s1, ','); }
    var s3 := s2 + "]";
    assert Scan(s3) == Scan(s2) by { ScanThenChar(Start, s2, ']'); }
    var s4 := s3 + ",";
    assert Scan(s4) == Scan(s2) by { ScanThenChar(Start, s3, ','); }
    var s5 := s4 + "[";
    assert Scan(s5) == Scan(s2) by { ScanThenChar(Start, s4, '['); }
    var s6 := s5 + b;
    assert Scan(s6) == ScanState(b, [a], []) by { ScanThenToken(Start, s5, b); assert "" + b == b; }
    var s7 := s6 + "]";
    assert Scan(s7) == ScanState("", [], [[a, b]]) by {
      ScanThenChar(Start, s6, ']');
      assert [a] + [b] == [a, b];
      assert [] + [[a, b]] == [[a, b]];
    }
    var s8 := s7 + "]";
    assert Scan(s8) == Scan(s7) by { ScanThenChar(Start, s7, ']'); }
  }

  /** A token after the last separator stays pending and is never emitted. */
  lemma TrailingTokenIsDropped(s: string, t: string)
    requires NoReservedChar(t)
    ensures Rows(s + t) == Rows(s)
    ensures Scan(s + t).token == Scan(s).token + t
  {
    ScanThenToken(Start, s, t);
  }
}
