/**
 * The scanner `segment_jaw` runs over the "AlignMatrix" text of the result, e.g. "[[1,2],[3,4]]".
 * It keeps three accumulators: the pending token (`temp_str`), the current row (`temp_vec`) and
 * the rows emitted so far (`align_matrix_`).  '[' and ' ' are skipped; ',' and ']' move a
 * non-empty pending token into the row, and a ']' that did so also emits the row; every other
 * character is appended to the token.  Tokens are kept as text: the conversion with `stod` is
 * not part of this model.
 *
 * `Scan` is the character-by-character definition the imperative scanner is proved against.
 * `Segments` is an independent reading of the same text, splitting it at ',' and ']', and the
 * lemmas relate the two.  `Group` reads the rows off those pieces, each with the separator that
 * ends it, and `ScanGroupsPieces` proves the scanner builds exactly that grouping.
 */
module AlignMatrix {

  /** The scanner's accumulators: `temp_str`, `temp_vec` and `align_matrix_`. */
  datatype ScanState = ScanState(token: string, row: seq<string>, rows: seq<seq<string>>)

  const Start := ScanState("", [], [])

  predicate Skipped(c: char) {
    c == '[' || c == ' '
  }

  predicate Separator(c: char) {
    c == ',' || c == ']'
  }

  /** One iteration of the scanning loop. */
  function Step(st: ScanState, c: char): ScanState {
    if Skipped(c) then st
    else if Separator(c) then
      if st.token == "" then st
      else if c == ']' then ScanState("", [], st.rows + [st.row + [st.token]])
      else ScanState("", st.row + [st.token], st.rows)
    else ScanState(st.token + [c], st.row, st.rows)
  }

  /** The accumulators after the loop has consumed all of `s`, starting from `st`. */
  function ScanFrom(st: ScanState, s: string): ScanState
    decreases |s|
  {
    if s == [] then st else Step(ScanFrom(st, s[..|s| - 1]), s[|s| - 1])
  }

  /** The accumulators after the loop has consumed all of `s`, starting from empty ones. */
  function Scan(s: string): ScanState {
    ScanFrom(Start, s)
  }

  /** The matrix the scanner leaves in `align_matrix_`. */
  function Rows(s: string): seq<seq<string>> {
    Scan(s).rows
  }

  // ----- An independent reading: split at separators -----

  /**
   * The text cut at every ',' and ']' with '[' and ' ' removed: one more piece than there are
   * separators, the last piece being what follows the last separator.
   */
  function Segments(s: string): (segs: seq<string>)
    ensures |segs| > 0
    ensures forall i :: 0 <= i < |segs| ==> NoReservedChar(segs[i])
    ensures Concat(segs) == Kept(s)
    ensures |segs| == |Closers(s)| + 1
    decreases |s|
  {
    if s == [] then [""]
    else
      var rest := Segments(s[1..]);
      if Separator(s[0]) then [""] + rest
      else if Skipped(s[0]) then rest
      else
        assert Concat(rest) == rest[0] + Concat(rest[1..]);
        [[s[0]] + rest[0]] + rest[1..]
  }

  /** The ',' and ']' characters of `s`, in order: `Closers(s)[i]` terminates `Segments(s)[i]`. */
  function Closers(s: string): string
    decreases |s|
  {
    if s == [] then [] else (if Separator(s[0]) then [s[0]] else []) + Closers(s[1..])
  }

  predicate NoReservedChar(t: string) {
    forall i :: 0 <= i < |t| ==> !Skipped(t[i]) && !Separator(t[i])
  }

  /** The characters of `s` other than '[', ' ', ',' and ']', in order. */
  function Kept(s: string): string
    decreases |s|
  {
    if s == [] then [] else (if Skipped(s[0]) || Separator(s[0]) then [] else [s[0]]) + Kept(s[1..])
  }

  function Concat(ss: seq<string>): string
    decreases |ss|
  {
    if ss == [] then [] else ss[0] + Concat(ss[1..])
  }

  /** The non-empty members of `ss`, in order. */
  function NonEmpty(ss: seq<string>): seq<string>
    decreases |ss|
  {
    if ss == [] then []
    else NonEmpty(ss[..|ss| - 1]) + (if ss[|ss| - 1] == "" then [] else [ss[|ss| - 1]])
  }

  /** The tokens that a ',' or ']' terminates and that are not empty: the values the scanner takes. */
  function Values(s: string): seq<string> {
    var segs := Segments(s);
    NonEmpty(segs[..|segs| - 1])
  }

  function Flatten(rows: seq<seq<string>>): seq<string>
    decreases |rows|
  {
    if rows == [] then [] else Flatten(rows[..|rows| - 1]) + rows[|rows| - 1]
  }

  /** The characters with '[' and ' ' removed, in order. */
  function Strip(s: string): string
    decreases |s|
  {
    if s == [] then [] else Strip(s[..|s| - 1]) + (if Skipped(s[|s| - 1]) then [] else [s[|s| - 1]])
  }

  // ----- Lemmas -----

  /** The pieces of `[c] + t`, given the pieces `rest` of `t`: the front step of `Segments`. */
  function PrependChar(c: char, rest: seq<string>): seq<string>
    requires |rest| > 0
  {
    if Separator(c) then [""] + rest
    else if Skipped(c) then rest
    else [[c] + rest[0]] + rest[1..]
  }

  /** The pieces of `t + [c]`, given the pieces `segs` of `t`: what one loop iteration sees. */
  function AppendChar(segs: seq<string>, c: char): seq<string>
    requires |segs| > 0
  {
    if Skipped(c) then segs
    else if Separator(c) then segs + [""]
    else segs[..|segs| - 1] + [segs[|segs| - 1] + [c]]
  }

  lemma PrependAppendCommute(a: char, rest: seq<string>, c: char)
    requires |rest| > 0
    ensures |PrependChar(a, rest)| > 0 && |AppendChar(rest, c)| > 0
    ensures PrependChar(a, AppendChar(rest, c)) == AppendChar(PrependChar(a, rest), c)
  {
    if !Separator(a) && !Skipped(a) && !Skipped(c) && !Separator(c) {
      var n := |rest|;
      var rest' := AppendChar(rest, c);
      if n == 1 {
        assert rest' == [rest[0] + [c]] && rest[1..] == [];
        assert [a] + (rest[0] + [c]) == ([a] + rest[0]) + [c];
      } else {
        var head := [a] + rest[0];
        var p := PrependChar(a, rest);
        assert p == [head] + rest[1..];
        assert p[..n - 1] == [head] + rest[1..n - 1] && p[n - 1] == rest[n - 1];
        assert rest'[0] == rest[0] && rest'[1..] == rest[1..n - 1] + [rest[n - 1] + [c]];
        assert PrependChar(a, rest') == [head] + (rest[1..n - 1] + [rest[n - 1] + [c]]);
      }
    } else if !Separator(a) && !Skipped(a) && Separator(c) && !Skipped(c) {
      var rest' := AppendChar(rest, c);
      assert rest'[0] == rest[0] && rest'[1..] == rest[1..] + [""];
    }
  }

  /** How `Segments` changes when one character is appended: the scanning loop's view of the split. */
  lemma {:induction false} SegmentsSnoc(s: string, c: char)
    ensures Segments(s + [c]) == AppendChar(Segments(s), c)
    decreases |s|
  {
    if s == [] {
      assert s + [c] == [c] && [c][1..] == [];
      assert Segments([c]) == PrependChar(c, [""]);
      assert [c] + "" == "" + [c];
    } else {
      var a, t := s[0], s[1..];
      assert (s + [c])[0] == a && (s + [c])[1..] == t + [c];
      SegmentsSnoc(t, c);
      assert Segments(s) == PrependChar(a, Segments(t));
      assert Segments(s + [c]) == PrependChar(a, Segments(t + [c]));
      PrependAppendCommute(a, Segments(t), c);
    }
  }

  /**
   * What the scanner has accumulated after any prefix: the pending token is the piece after the
   * last separator, and the emitted rows followed by the open row hold exactly the non-empty
   * terminated tokens, in input order.  So the emitted rows, concatenated, are a prefix of
   * `Values(s)`: what is left in the open row or the pending token at the end is dropped.
   */
  lemma {:induction false} ScanMatchesSegments(s: string)
    ensures var segs := Segments(s);
      Scan(s).token == segs[|segs| - 1] &&
      Flatten(Scan(s).rows) + Scan(s).row == NonEmpty(segs[..|segs| - 1])
    ensures Flatten(Rows(s)) <= Values(s)
    decreases |s|
  {
    if s != [] {
      var p, c := s[..|s| - 1], s[|s| - 1];
      assert s == p + [c];
      ScanMatchesSegments(p);
      SegmentsSnoc(p, c);
      var segs, st := Segments(p), Scan(p);
      var segs' := Segments(s);
      if Separator(c) && !Skipped(c) {
        assert segs'[..|segs'| - 1] == segs;
        assert NonEmpty(segs) == NonEmpty(segs[..|segs| - 1]) + (if segs[|segs| - 1] == "" then [] else [segs[|segs| - 1]]);
        if st.token != "" && c == ']' {
          var rows' := st.rows + [st.row + [st.token]];
          assert rows'[..|rows'| - 1] == st.rows;
        }
      } else if !Skipped(c) {
        assert segs'[..|segs'| - 1] == segs[..|segs| - 1];
      }
    }
  }

  /** Every row the scanner emits is non-empty. */
  lemma {:induction false} RowsAreNonEmpty(s: string)
    ensures forall i :: 0 <= i < |Rows(s)| ==> |Rows(s)[i]| > 0
    decreases |s|
  {
    if s != [] {
      var p := s[..|s| - 1];
      RowsAreNonEmpty(p);
      var st := Scan(p);
      assert Scan(s) == Step(st, s[|s| - 1]);
      assert Rows(p) == st.rows;
    }
  }

  /**
   * No value contains '[', ' ', ',' or ']', and every other character of the text ends up in
   * some piece: tabs, letters and the like are not skipped.
   */
  lemma TokensKeepEveryOtherChar(s: string)
    ensures forall t :: t in Values(s) ==> t != "" && NoReservedChar(t)
    ensures Concat(Segments(s)) == Kept(s)
  {
    var segs := Segments(s);
    var init := segs[..|segs| - 1];
    NonEmptyKeepsMembers(init);
    forall t | t in Values(s) ensures t != "" && NoReservedChar(t) {
      var i :| 0 <= i < |init| && init[i] == t;
      assert segs[i] == t;
    }
  }

  lemma {:induction false} NonEmptyKeepsMembers(ss: seq<string>)
    ensures forall t :: t in NonEmpty(ss) ==> t in ss && t != ""
    decreases |ss|
  {
    if ss != [] {
      NonEmptyKeepsMembers(ss[..|ss| - 1]);
    }
  }

  /** '[' and ' ' have no effect at all: the scan of a text equals the scan of its stripped form. */
  lemma {:induction false} ScanIgnoresBracketsAndSpaces(s: string)
    ensures Scan(s) == Scan(Strip(s))
    decreases |s|
  {
    if s != [] {
      var p, c := s[..|s| - 1], s[|s| - 1];
      ScanIgnoresBracketsAndSpaces(p);
      assert Scan(s) == Step(Scan(p), c);
      if Skipped(c) {
        assert Strip(s) == Strip(p);
      } else {
        var t := Strip(p) + [c];
        assert Strip(s) == t;
        assert t[..|t| - 1] == Strip(p) && t[|t| - 1] == c;
      }
    }
  }

  // ----- Rows by terminator -----

  /** A piece of the text together with the separator that ends it. */
  datatype Piece = Piece(text: string, closer: char)

  /** The terminated pieces of `s`, each with its ',' or ']'; the unterminated last piece is not among them. */
  function Pieces(s: string): (ps: seq<Piece>)
    ensures |ps| == |Segments(s)| - 1
    ensures forall i :: 0 <= i < |ps| ==> ps[i] == Piece(Segments(s)[i], Closers(s)[i])
  {
    var segs, closers := Segments(s), Closers(s);
    seq(|closers|, i requires 0 <= i < |closers| => Piece(segs[i], closers[i]))
  }

  /** A piece that ends a row: a non-empty value followed by ']'. */
  predicate ClosesRow(p: Piece) {
    p.text != "" && p.closer == ']'
  }

  /** Rows grouped from terminated pieces, and the row still open after the last of them. */
  datatype Grouping = Grouping(rows: seq<seq<string>>, open: seq<string>)

  /**
   * The matrix read off the pieces: empty pieces are dropped, every other piece joins the open
   * row, and a piece that closes a row ends that row.
   */
  function Group(ps: seq<Piece>): Grouping
    decreases |ps|
  {
    if ps == [] then Grouping([], [])
    else
      var g, p := Group(ps[..|ps| - 1]), ps[|ps| - 1];
      if p.text == "" then g
      else if p.closer == ']' then Grouping(g.rows + [g.open + [p.text]], [])
      else Grouping(g.rows, g.open + [p.text])
  }

  /** The number of pieces up to and including the last one that closes a row (0 if none does). */
  function LastClose(ps: seq<Piece>): (n: nat)
    ensures n <= |ps|
    ensures n > 0 ==> ClosesRow(ps[n - 1])
    ensures forall i :: n <= i < |ps| ==> !ClosesRow(ps[i])
    decreases |ps|
  {
    if ps == [] then 0
    else if ClosesRow(ps[|ps| - 1]) then |ps|
    else LastClose(ps[..|ps| - 1])
  }

  /** The texts of the non-empty pieces, in order. */
  function Texts(ps: seq<Piece>): seq<string>
    decreases |ps|
  {
    if ps == [] then []
    else Texts(ps[..|ps| - 1]) + (if ps[|ps| - 1].text == "" then [] else [ps[|ps| - 1].text])
  }

  lemma {:induction false} ClosersSnoc(s: string, c: char)
    ensures Closers(s + [c]) == Closers(s) + (if Separator(c) then [c] else [])
    decreases |s|
  {
    if s != [] {
      assert (s + [c])[0] == s[0] && (s + [c])[1..] == s[1..] + [c];
      ClosersSnoc(s[1..], c);
    } else {
      assert [c][1..] == [];
    }
  }

  /** Appending a separator adds one piece, ended by it, holding the text pending before it; any other character adds none. */
  lemma PiecesSnoc(s: string, c: char)
    ensures var segs := Segments(s);
      Pieces(s + [c]) == if Separator(c) then Pieces(s) + [Piece(segs[|segs| - 1], c)] else Pieces(s)
  {
    var segs, segs' := Segments(s), Segments(s + [c]);
    var closers, closers' := Closers(s), Closers(s + [c]);
    SegmentsSnoc(s, c);
    ClosersSnoc(s, c);
    var ps, ps' := Pieces(s), Pieces(s + [c]);
    if Separator(c) {
      assert segs' == segs + [""] && closers' == closers + [c];
      var last := Piece(segs[|segs| - 1], c);
      assert |ps'| == |ps| + 1;
      forall i | 0 <= i < |ps'| ensures ps'[i] == (ps + [last])[i] {
        if i < |ps| {
          assert segs'[i] == segs[i] && closers'[i] == closers[i];
        }
      }
    } else {
      assert closers' == closers;
      assert |ps'| == |ps|;
      forall i | 0 <= i < |ps| ensures ps'[i] == ps[i] {
        assert segs'[i] == segs[i];
      }
    }
  }

  /**
   * The scanner builds exactly the grouping of the terminated pieces: for every text, `Rows(s)`
   * is `Group(Pieces(s)).rows`, the scanner's open row is the grouping's open row, and the
   * pending token is the unterminated last piece.
   */
  lemma {:induction false} ScanGroupsPieces(s: string)
    ensures Rows(s) == Group(Pieces(s)).rows
    ensures Scan(s).row == Group(Pieces(s)).open
    ensures Scan(s).token == Segments(s)[|Segments(s)| - 1]
    decreases |s|
  {
    if s != [] {
      var p, c := s[..|s| - 1], s[|s| - 1];
      assert s == p + [c];
      ScanGroupsPieces(p);
      PiecesSnoc(p, c);
      SegmentsSnoc(p, c);
      assert Scan(s) == Step(Scan(p), c);
      if Separator(c) {
        var ps' := Pieces(s);
        assert ps'[..|ps'| - 1] == Pieces(p);
      }
    }
  }

  /** The open row of a grouping holds the non-empty pieces after the last one that closes a row. */
  lemma {:induction false} OpenRowFollowsLastClose(ps: seq<Piece>)
    ensures Group(ps).open == Texts(ps[LastClose(ps)..])
    decreases |ps|
  {
    if ps != [] {
      var init, last := ps[..|ps| - 1], ps[|ps| - 1];
      OpenRowFollowsLastClose(init);
      if !ClosesRow(last) {
        var n := LastClose(init);
        var tail := ps[n..];
        assert tail[..|tail| - 1] == init[n..] && tail[|tail| - 1] == last;
      }
    }
  }

  /** Every row of a grouping ends at a piece that closes a row: there are as many rows as such pieces. */
  lemma {:induction false} RowPerClosingPiece(ps: seq<Piece>)
    ensures |Group(ps).rows| == |set i | 0 <= i < |ps| && ClosesRow(ps[i])|
    decreases |ps|
  {
    if ps != [] {
      var init, n := ps[..|ps| - 1], |ps|;
      RowPerClosingPiece(init);
      var before := set i | 0 <= i < n - 1 && ClosesRow(init[i]);
      var now := set i | 0 <= i < n && ClosesRow(ps[i]);
      if ClosesRow(ps[n - 1]) {
        assert now == before + {n - 1};
      } else {
        assert now == before;
      }
    }
  }
}
