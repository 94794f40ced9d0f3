/**
 * The search history of `Busquedas` as values: the insertion rule of
 * `agregarHistorial` and the display transform of `historialCapitalizado`,
 * with the properties both keep.
 */
module Historial {
  import opened Text

  // ---------------------------------------------------------------------
  // Insertion (agregarHistorial)
  // ---------------------------------------------------------------------

  /** No entry occurs twice. */
  predicate NoDuplicates(h: seq<string>) {
    forall i, j :: 0 <= i < j < |h| ==> h[i] != h[j]
  }

  /** Every entry is already in lower case. */
  predicate AllLower(h: seq<string>) {
    forall i :: 0 <= i < |h| ==> LowerStr(h[i]) == h[i]
  }

  /**
   * The history after adding `lugar`: its lower-cased form goes to the front
   * unless that exact string is already present. The old entries always stay,
   * in their order, at the end of the new history.
   */
  function Inserted(h: seq<string>, lugar: string): (r: seq<string>)
    ensures LowerStr(lugar) in r
    ensures |h| <= |r| <= |h| + 1
    ensures r[|r| - |h|..] == h
    ensures forall e :: e in r <==> e in h || e == LowerStr(lugar)
  {
    var term := LowerStr(lugar);
    if term in h then h else [term] + h
  }

  /** A term already present (in lower case) leaves the history as it is. */
  lemma InsertedPresent(h: seq<string>, lugar: string)
    requires LowerStr(lugar) in h
    ensures Inserted(h, lugar) == h
  {
  }

  /** A new term grows the history by one, at index 0, before the old entries. */
  lemma InsertedNew(h: seq<string>, lugar: string)
    requires LowerStr(lugar) !in h
    ensures |Inserted(h, lugar)| == |h| + 1
    ensures Inserted(h, lugar)[0] == LowerStr(lugar)
    ensures Inserted(h, lugar)[1..] == h
  {
  }

  /** Insertion never creates a duplicate. */
  lemma InsertedKeepsDistinct(h: seq<string>, lugar: string)
    requires NoDuplicates(h)
    ensures NoDuplicates(Inserted(h, lugar))
  {
    var r := Inserted(h, lugar);
    if r != h {
      forall i, j | 0 <= i < j < |r| ensures r[i] != r[j] {
        assert r[j] == h[j - 1];
        if i == 0 {
          assert h[j - 1] in h;
        }
      }
    }
  }

  lemma LowerIdempotent(s: string)
    ensures LowerStr(LowerStr(s)) == LowerStr(s)
  {
  }

  /** Entries added by insertion are in lower case. */
  lemma InsertedKeepsLower(h: seq<string>, lugar: string)
    requires AllLower(h)
    ensures AllLower(Inserted(h, lugar))
  {
    LowerIdempotent(lugar);
  }

  /** Adding a term that differs only in case from one just added changes nothing. */
  lemma InsertedCaseVariant(h: seq<string>, x: string, y: string)
    requires LowerStr(x) == LowerStr(y)
    ensures Inserted(Inserted(h, x), y) == Inserted(h, x)
  {
  }

  /** Adding the same term twice leaves exactly one entry for it. */
  lemma InsertedTwiceOnce(h: seq<string>, lugar: string)
    requires NoDuplicates(h)
    ensures var r := Inserted(Inserted(h, lugar), lugar);
            NoDuplicates(r) && LowerStr(lugar) in r
  {
    InsertedKeepsDistinct(h, lugar);
    InsertedCaseVariant(h, lugar, lugar);
  }

  /** Most recent first: adding "Madrid" and then "Paris" gives ["paris", "madrid"]. */
  lemma InsertedMostRecentFirst()
    ensures Inserted(Inserted([], "Madrid"), "Paris") == ["paris", "madrid"]
  {
    assert LowerStr("Madrid") == "madrid";
    assert LowerStr("Paris") == "paris";
  }

  // ---------------------------------------------------------------------
  // Display capitalisation (historialCapitalizado)
  // ---------------------------------------------------------------------

  /**
   * One space-separated piece of an entry: a blank piece (empty or white
   * space only) becomes "", any other has its first character upper-cased.
   */
  function CapitalizeWord(p: string): (r: string)
    ensures ' ' !in p ==> ' ' !in r
    ensures |r| <= |p|
    ensures IsBlank(p) <==> r == ""
    ensures !IsBlank(p) ==> |r| == |p| && r[0] == Upper(p[0]) && r[1..] == p[1..]
  {
    if IsBlank(p) then "" else [Upper(p[0])] + p[1..]
  }

  /** `palabras.map(...)`: one capitalised piece per piece, none containing a space if none did. */
  function CapitalizeWords(ps: seq<string>): (r: seq<string>)
    ensures |r| == |ps|
    ensures SpaceFree(ps) ==> SpaceFree(r)
  {
    seq(|ps|, k requires 0 <= k < |ps| => CapitalizeWord(ps[k]))
  }

  /**
   * One history entry as displayed: split on ' ', capitalise each piece,
   * join with ' '. The display has as many spaces as the entry, so it
   * splits into as many pieces.
   */
  function CapitalizeEntry(lugar: string): (r: string)
    ensures SpaceCount(r) == SpaceCount(lugar)
  {
    var ws := CapitalizeWords(Split(lugar));
    var r := Join(ws);
    SplitJoin(ws);
    SplitCount(r);
    SplitCount(lugar);
    r
  }

  /** The whole history as displayed, entry by entry. */
  function CapitalizeHistory(h: seq<string>): (r: seq<string>)
    ensures |r| == |h|
    ensures forall i :: 0 <= i < |h| ==> Split(r[i]) == CapitalizeWords(Split(h[i]))
  {
    SplitCapitalizedAll(h);
    seq(|h|, i requires 0 <= i < |h| => CapitalizeEntry(h[i]))
  }

  lemma SplitCapitalizedAll(h: seq<string>)
    ensures forall i :: 0 <= i < |h| ==> Split(CapitalizeEntry(h[i])) == CapitalizeWords(Split(h[i]))
  {
    forall i | 0 <= i < |h| ensures Split(CapitalizeEntry(h[i])) == CapitalizeWords(Split(h[i])) {
      SplitCapitalized(h[i]);
    }
  }

  /**
   * A displayed entry splits into exactly as many pieces as the stored one,
   * and piece k of it is piece k of the stored entry, capitalised.
   */
  lemma SplitCapitalized(s: string)
    ensures |Split(CapitalizeEntry(s))| == |Split(s)|
    ensures Split(CapitalizeEntry(s)) == CapitalizeWords(Split(s))
  {
    SplitJoin(CapitalizeWords(Split(s)));
  }

  /** Capitalising an already displayed entry changes nothing. */
  lemma CapitalizeEntryIdempotent(s: string)
    ensures CapitalizeEntry(CapitalizeEntry(s)) == CapitalizeEntry(s)
  {
    var ws := CapitalizeWords(Split(s));
    SplitCapitalized(s);
    forall k | 0 <= k < |ws| ensures CapitalizeWord(ws[k]) == ws[k] {
      CapitalizeWordIdempotent(Split(s)[k]);
    }
    assert CapitalizeWords(ws) == ws;
  }

  lemma CapitalizeWordIdempotent(p: string)
    ensures CapitalizeWord(CapitalizeWord(p)) == CapitalizeWord(p)
  {
    if !IsBlank(p) {
      var r := CapitalizeWord(p);
      assert !IsBlank(r) by {
        var i :| 0 <= i < |p| && !IsJsWhitespace(p[i]);
        if i == 0 {
          assert !IsJsWhitespace(r[0]);
        } else {
          assert r[i] == r[1..][i - 1] == p[i];
        }
      }
      var r' := CapitalizeWord(r);
      assert r'[0] == Upper(Upper(p[0])) == Upper(p[0]);
      assert r' == [r'[0]] + r'[1..];
      assert r == [r[0]] + r[1..];
    }
  }

  function LowerWords(ps: seq<string>): seq<string> {
    seq(|ps|, k requires 0 <= k < |ps| => LowerStr(ps[k]))
  }

  /** Lower-casing a joined string lower-cases each piece. */
  lemma {:induction false} LowerJoin(ts: seq<string>)
    ensures LowerStr(Join(ts)) == Join(LowerWords(ts))
  {
    if |ts| > 1 {
      LowerJoin(ts[1..]);
      assert LowerWords(ts)[1..] == LowerWords(ts[1..]);
      assert LowerStr(ts[0] + " " + Join(ts[1..]))
          == LowerStr(ts[0]) + " " + LowerStr(Join(ts[1..]));
    }
  }

  /** Lower-casing does not move any space, so it commutes with splitting. */
  lemma SplitLower(s: string)
    ensures Split(LowerStr(s)) == LowerWords(Split(s))
  {
    var ps := Split(s);
    JoinSplit(s);
    LowerJoin(ps);
    forall k | 0 <= k < |ps| ensures ' ' !in LowerWords(ps)[k] {
      assert ' ' !in ps[k];
    }
    SplitJoin(LowerWords(ps));
  }

  /** A stored piece that is not white space only is recovered by lower-casing its display form. */
  lemma LowerCapitalizedWord(p: string)
    requires LowerStr(p) == p
    requires p == "" || !IsBlank(p)
    ensures LowerStr(CapitalizeWord(p)) == p
  {
    if p != "" {
      var r := CapitalizeWord(p);
      LowerUpperFirst(p, r);
    }
  }

  /** Lower-casing a lower-case piece whose first character was upper-cased gives the piece back. */
  lemma LowerUpperFirst(p: string, r: string)
    requires LowerStr(p) == p
    requires |p| > 0 && |r| == |p| && r[0] == Upper(p[0]) && r[1..] == p[1..]
    ensures LowerStr(r) == p
  {
    forall i | 0 <= i < |p| ensures LowerStr(r)[i] == p[i] {
      assert Lower(p[i]) == LowerStr(p)[i];
      if i == 0 {
        assert Lower(Upper(p[0])) == p[0];
      } else {
        assert r[i] == r[1..][i - 1] == p[i];
      }
    }
  }

  /**
   * For an entry stored by insertion (lower case) whose pieces are never
   * white space only, lower-casing the displayed entry gives the entry back:
   * the display loses nothing but case.
   */
  lemma CapitalizeEntryLowersBack(e: string)
    requires LowerStr(e) == e
    requires forall k :: 0 <= k < |Split(e)| ==> Split(e)[k] == "" || !IsBlank(Split(e)[k])
    ensures LowerStr(CapitalizeEntry(e)) == e
  {
    var ps := Split(e);
    var ws := CapitalizeWords(ps);
    assert CapitalizeEntry(e) == Join(ws);
    LowerJoin(ws);
    LowerWordsCapitalized(e);
    JoinSplit(e);
  }

  /** Lower-casing the capitalised pieces of such an entry gives its pieces back. */
  lemma LowerWordsCapitalized(e: string)
    requires LowerStr(e) == e
    requires forall k :: 0 <= k < |Split(e)| ==> Split(e)[k] == "" || !IsBlank(Split(e)[k])
    ensures LowerWords(CapitalizeWords(Split(e))) == Split(e)
  {
    var ps := Split(e);
    var ws := CapitalizeWords(ps);
    SplitLower(e);
    forall k | 0 <= k < |ps| ensures LowerStr(ws[k]) == ps[k] {
      assert LowerWords(ps)[k] == ps[k];
      LowerCapitalizedWord(ps[k]);
    }
  }

  /** A piece starting with a lower-case ASCII letter has that letter upper-cased. */
  lemma CapitalizeLetterWord(p: string)
    requires |p| > 0 && 'a' <= p[0] <= 'z'
    ensures CapitalizeWord(p) == [Upper(p[0])] + p[1..]
  {
    assert !IsJsWhitespace(p[0]);
  }

  /** "new york" is displayed as "New York". */
  lemma CapitalizeNewYork()
    ensures CapitalizeEntry("new york") == "New York"
  {
    SplitNewYork();
    CapitalizeNewYorkWords();
    JoinNewYork();
  }

  lemma JoinNewYork()
    ensures Join(["New", "York"]) == "New York"
  {
    assert ["New", "York"][1..] == ["York"];
  }

  lemma SplitNewYork()
    ensures Split("new york") == ["new", "york"]
  {
    assert "new york" == "new" + " " + "york";
    SplitCons("new", "york");
    assert ' ' !in "york";
  }

  lemma CapitalizeNewYorkWords()
    ensures CapitalizeWords(["new", "york"]) == ["New", "York"]
  {
    CapitalizeLetterWord("new");
    CapitalizeLetterWord("york");
    assert Upper('n') == 'N' && "new"[1..] == "ew";
    assert Upper('y') == 'Y' && "york"[1..] == "ork";
    assert CapitalizeWord("new") == "New";
    assert CapitalizeWord("york") == "York";
  }

  /** A double space leaves an empty piece in place: "san  jose" is displayed as "San  Jose". */
  lemma CapitalizeDoubleSpace()
    ensures CapitalizeEntry("san  jose") == "San  Jose"
  {
    SplitSanJose();
    CapitalizeSanJoseWords();
    JoinSanJose();
  }

  lemma SplitSanJose()
    ensures Split("san  jose") == ["san", "", "jose"]
  {
    assert "san  jose" == "san" + " " + " jose";
    SplitJose();
    SplitCons("san", " jose");
  }

  lemma SplitJose()
    ensures Split(" jose") == ["", "jose"]
  {
    assert " jose" == "" + " " + "jose";
    SplitCons("", "jose");
    assert ' ' !in "jose";
  }

  lemma CapitalizeSanJoseWords()
    ensures CapitalizeWords(["san", "", "jose"]) == ["San", "", "Jose"]
  {
    CapitalizeSan();
    CapitalizeJose();
    assert IsBlank("");
    assert CapitalizeWord("") == "";
  }

  lemma CapitalizeSan()
    ensures CapitalizeWord("san") == "San"
  {
    CapitalizeLetterWord("san");
    assert Upper('s') == 'S' && "san"[1..] == "an";
  }

  lemma CapitalizeJose()
    ensures CapitalizeWord("jose") == "Jose"
  {
    CapitalizeLetterWord("jose");
    assert Upper('j') == 'J' && "jose"[1..] == "ose";
  }

  lemma JoinSanJose()
    ensures Join(["San", "", "Jose"]) == "San  Jose"
  {
    assert Join(["San", "", "Jose"]) == "San" + " " + Join(["", "Jose"]);
    assert ["San", "", "Jose"][1..] == ["", "Jose"];
    assert ["", "Jose"][1..] == ["Jose"];
  }
}
