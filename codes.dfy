/**
 * `_codes_list`: turns the free-text `codigos` form field into the list of
 * codes stored with a document. Commas and line feeds separate codes; each
 * code is trimmed and upper-cased; blank pieces are dropped. Order and
 * duplicates are kept.
 */
module Codes {
  import opened Wrappers
  import opened Text

  /** What every element of a normalised list looks like. */
  predicate IsCode(c: string) {
    && c != []
    && NoOuterSpace(c)
    && ',' !in c
    && '\n' !in c
    && NoLower(c)
  }

  /** Upper-casing a trimmed, non-empty piece free of separators gives a code. */
  lemma UpperIsCode(t: string)
    requires t != [] && NoOuterSpace(t) && ',' !in t && '\n' !in t
    ensures IsCode(Upper(t))
  {
    var u := Upper(t);
    assert forall i :: 0 <= i < |t| ==> (IsSpace(u[i]) <==> IsSpace(t[i]));
    assert forall i :: 0 <= i < |t| ==> u[i] != ',' && u[i] != '\n';
  }

  /** The list comprehension: keep `p.strip().upper()` for every piece whose strip is non-empty. */
  function Normalize(pieces: seq<string>): (codes: seq<string>)
    requires forall p :: p in pieces ==> ',' !in p && '\n' !in p
    ensures |codes| <= |pieces|
    ensures forall c :: c in codes ==> IsCode(c)
  {
    if pieces == [] then []
    else
      var t := Strip(pieces[0]);
      if t == [] then Normalize(pieces[1..])
      else
        UpperIsCode(t);
        [Upper(t)] + Normalize(pieces[1..])
  }

  /** The pieces the comprehension ranges over: `raw.replace("\n", ",").split(",")`. */
  function Pieces(s: string): (pieces: seq<string>)
    ensures |pieces| >= 1
    ensures forall p :: p in pieces ==> ',' !in p && '\n' !in p
  {
    Split(ReplaceNewlines(s), ',')
  }

  /**
   * `_codes_list(raw)`: `None` and `""` give `[]`; every code is non-empty,
   * trimmed, free of `,` and line feeds, and upper-case.
   */
  function CodesList(raw: Option<string>): (codes: seq<string>)
    ensures raw == None || raw == Some("") ==> codes == []
    ensures forall c :: c in codes ==> IsCode(c)
  {
    match raw
    case None => []
    case Some(s) => if s == [] then [] else Normalize(Pieces(s))
  }

  /** The early return for `""` agrees with what the comprehension alone gives. */
  lemma CodesListOfText(s: string)
    ensures CodesList(Some(s)) == Normalize(Pieces(s))
  {
    if s == [] {
      assert Pieces(s) == [[]];
      assert Strip([]) == [];
    }
  }

  lemma {:induction false} NormalizeAppend(p: seq<string>, q: seq<string>)
    requires forall x :: x in p ==> ',' !in x && '\n' !in x
    requires forall x :: x in q ==> ',' !in x && '\n' !in x
    ensures Normalize(p + q) == Normalize(p) + Normalize(q)
  {
    if p == [] {
      assert p + q == q;
    } else {
      var pq := p + q;
      assert pq[0] == p[0] && pq[1..] == p[1..] + q;
      assert p[0] in p;
      NormalizeAppend(p[1..], q);
    }
  }

  /**
   * Order and duplicates are kept: the codes of text joined at a comma or a
   * line feed are the codes of the left part followed by those of the right.
   */
  lemma CodesListAppend(a: string, b: string, sep: char)
    requires sep == ',' || sep == '\n'
    ensures CodesList(Some(a + [sep] + b)) == CodesList(Some(a)) + CodesList(Some(b))
  {
    CodesListOfText(a + [sep] + b);
    CodesListOfText(a);
    CodesListOfText(b);
    ReplaceNewlinesAppend(a + [sep], b);
    ReplaceNewlinesAppend(a, [sep]);
    assert ReplaceNewlines([sep]) == [','];
    SplitAppend(ReplaceNewlines(a), ReplaceNewlines(b), ',');
    NormalizeAppend(Pieces(a), Pieces(b));
  }

  /** A single piece gives its trimmed, upper-cased self, or nothing when it is blank. */
  lemma CodesListOnePiece(t: string)
    requires ',' !in t && '\n' !in t
    ensures CodesList(Some(t)) == if AllSpace(t) then [] else [Upper(Strip(t))]
  {
    CodesListOfText(t);
    ReplaceNewlinesNoOp(t);
    SplitNoSeparator(t, ',');
  }

  /** A normalised list is a fixed point of normalisation. */
  lemma {:induction false} NormalizeCodes(codes: seq<string>)
    requires forall c :: c in codes ==> IsCode(c)
    requires forall c :: c in codes ==> ',' !in c && '\n' !in c
    ensures Normalize(codes) == codes
  {
    if codes != [] {
      var c := codes[0];
      assert c in codes;
      StripNoOp(c);
      UpperNoOp(c);
      NormalizeCodes(codes[1..]);
    }
  }

  /** Idempotence: re-normalising `",".join(_codes_list(s))` gives the same list. */
  lemma CodesListIdempotent(raw: Option<string>)
    ensures CodesList(Some(Join(CodesList(raw), ','))) == CodesList(raw)
  {
    var codes := CodesList(raw);
    if codes != [] {
      var joined := Join(codes, ',');
      CodesListOfText(joined);
      JoinAvoids(codes, ',', '\n');
      ReplaceNewlinesNoOp(joined);
      SplitJoin(codes, ',');
      NormalizeCodes(codes);
    }
  }

  /** A piece that is already a code gives exactly itself. */
  lemma CodesListOfCode(c: string)
    requires IsCode(c)
    ensures CodesList(Some(c)) == [c]
  {
    CodesListOnePiece(c);
    StripNoOp(c);
    UpperNoOp(c);
  }

  /** Duplicates are kept: a code given twice is stored twice. */
  lemma CodesListKeepsDuplicates(c: string, sep: char)
    requires IsCode(c) && (sep == ',' || sep == '\n')
    ensures CodesList(Some(c + [sep] + c)) == [c, c]
  {
    CodesListAppend(c, c, sep);
    CodesListOfCode(c);
  }
}
