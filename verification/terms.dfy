/** The term compiler of the news crawler: `_make_search_terms` (one stored
    search term per distinct keyword) and `_make_search_str` (one boolean
    OR query for providers that take compound queries). */
module Terms {
  import opened Text

  predicate NoDuplicates<T(==)>(xs: seq<T>) {
    forall i, j :: 0 <= i < j < |xs| ==> xs[i] != xs[j]
  }

  /** `xs` lists the elements of `s`, each once, in some order: what
      `list(...)` of a Python set produces. */
  ghost predicate IsListing(xs: seq<string>, s: set<string>) {
    NoDuplicates(xs) && forall x :: x in xs <==> x in s
  }

  predicate NoUpperAscii(s: string) {
    forall i :: 0 <= i < |s| ==> !('A' <= s[i] <= 'Z')
  }

  /** The compiled form of one keyword: lower-cased, stripped, and quoted
      when it holds more than one word. */
  function FormatTerm(t: string): (r: string)
    ensures TwoWords(t) ==> r == "\"" + Strip(Lower(t)) + "\""
    ensures !TwoWords(t) ==> r == Strip(Lower(t))
  {
    SplitCountsWords(t);
    var core := Strip(Lower(t));
    if |Split(t)| > 1 then "\"" + core + "\"" else core
  }

  lemma SliceIsLowerCase(s: string, i: nat, j: nat)
    requires NoUpperAscii(s) && i <= j <= |s|
    ensures NoUpperAscii(s[i..j])
  {
    assert forall k :: 0 <= k < j - i ==> s[i..j][k] == s[i + k];
  }

  lemma StripLowerIsLowerCase(t: string)
    ensures NoUpperAscii(Strip(Lower(t)))
  {
    var low := Lower(t);
    forall k | 0 <= k < |low| ensures !('A' <= low[k] <= 'Z') {
      assert low[k] == LowerChar(t[k]);
    }
    var i, j := StripParts(low);
    SliceIsLowerCase(low, i, j);
  }

  lemma NoUpperConcat(a: string, b: string)
    requires NoUpperAscii(a) && NoUpperAscii(b)
    ensures NoUpperAscii(a + b)
  {
  }

  /** A compiled term holds no upper-case ASCII letter. */
  lemma FormatTermIsLowerCase(t: string)
    ensures NoUpperAscii(FormatTerm(t))
  {
    var core := Strip(Lower(t));
    StripLowerIsLowerCase(t);
    if TwoWords(t) {
      NoUpperConcat("\"", core);
      NoUpperConcat("\"" + core, "\"");
    }
  }

  /** The set `_make_search_terms` builds before turning it into a list. */
  function CompileTerms(terms: seq<string>): set<string> {
    set t | t in terms :: FormatTerm(t)
  }

  lemma CompileTermsSnoc(terms: seq<string>, t: string)
    ensures CompileTerms(terms + [t]) == CompileTerms(terms) + {FormatTerm(t)}
  {
    var ts := terms + [t];
    forall x | x in CompileTerms(ts) ensures x in CompileTerms(terms) + {FormatTerm(t)} {
      var u :| u in ts && x == FormatTerm(u);
      if u != t { assert u in terms; }
    }
    forall x | x in CompileTerms(terms) ensures x in CompileTerms(ts) {
      var u :| u in terms && x == FormatTerm(u);
      assert u in ts;
    }
    assert t in ts;
  }

  /** Python's `list(s)` for a set: each element once, in the set's
      iteration order, which is modelled as an arbitrary choice. */
  method ListSet(s: set<string>) returns (r: seq<string>)
    ensures NoDuplicates(r)
    ensures forall x :: x in r <==> x in s
  {
    r := [];
    var left := s;
    while left != {}
      invariant left <= s
      invariant NoDuplicates(r)
      invariant forall x :: x in r <==> x in s - left
      decreases |left|
    {
      var x :| x in left;
      assert x !in r;
      r := r + [x];
      left := left - {x};
    }
  }

  /** `_make_search_terms`: every keyword formatted, duplicates collapsed,
      listed in an order the caller cannot rely on. */
  method MakeSearchTerms(terms: seq<string>) returns (r: seq<string>)
    ensures NoDuplicates(r)
    ensures forall x :: x in r <==> exists t :: t in terms && x == FormatTerm(t)
  {
    var formatted: set<string> := {};
    var i := 0;
    while i < |terms|
      invariant 0 <= i <= |terms|
      invariant formatted == CompileTerms(terms[..i])
    {
      assert terms[..i + 1] == terms[..i] + [terms[i]];
      CompileTermsSnoc(terms[..i], terms[i]);
      formatted := formatted + {FormatTerm(terms[i])};
      i := i + 1;
    }
    assert terms[..i] == terms;
    r := ListSet(formatted);
  }

  const Separator: string := " OR "

  /** How `_make_search_str` writes one term: a multi-word term is stripped
      and quoted (its case is kept), any other term is copied verbatim. */
  function QueryPiece(t: string): string {
    if |Split(t)| > 1 then "\"" + Strip(t) + "\"" else t
  }

  function QueryPieces(terms: seq<string>): (r: seq<string>)
    ensures |r| == |terms|
    ensures forall i :: 0 <= i < |terms| ==> r[i] == QueryPiece(terms[i])
  {
    seq(|terms|, i requires 0 <= i < |terms| => QueryPiece(terms[i]))
  }

  lemma PrefixSnoc<T>(xs: seq<T>, i: nat)
    requires i < |xs|
    ensures xs[..i + 1] == xs[..i] + [xs[i]]
  {
  }

  /** Reference definition: the pieces with the separator between them. */
  function JoinOr(pieces: seq<string>): string {
    if |pieces| == 0 then ""
    else if |pieces| == 1 then pieces[0]
    else pieces[0] + Separator + JoinOr(pieces[1..])
  }

  lemma {:induction false} JoinOrSnoc(pieces: seq<string>, p: string)
    requires pieces != []
    ensures JoinOr(pieces + [p]) == JoinOr(pieces) + Separator + p
    decreases |pieces|
  {
    if |pieces| == 1 {
      assert (pieces + [p])[1..] == [p];
    } else {
      assert (pieces + [p])[1..] == pieces[1..] + [p];
      JoinOrSnoc(pieces[1..], p);
    }
  }

  /** `re.sub(r"( OR )$", "", s)`: `$` matches at the very end and also just
      before a final newline. */
  function DropTrailingSeparator(s: string): string {
    if EndsWith(s, Separator) then s[..|s| - 4]
    else if EndsWith(s, Separator + "\n") then s[..|s| - 5] + "\n"
    else s
  }

  lemma DropsAppendedSeparator(s: string)
    ensures DropTrailingSeparator(s + Separator) == s
  {
    var t := s + Separator;
    assert EndsWith(t, Separator);
    assert t[..|t| - 4] == s;
  }

  lemma StrippedEndsWithoutSeparator(s: string)
    ensures !EndsWith(Strip(s), Separator)
  {
  }

  /** `_make_search_str`: appends each piece and a separator, removes the
      separator left at the end, and strips the whole string. */
  method MakeSearchStr(terms: seq<string>) returns (r: string)
    ensures r == Strip(JoinOr(QueryPieces(terms)))
    ensures terms == [] ==> r == ""
    ensures !EndsWith(r, Separator)
  {
    ghost var pieces := QueryPieces(terms);
    var s := "";
    for i := 0 to |terms|
      invariant i == 0 ==> s == ""
      invariant i > 0 ==> s == JoinOr(pieces[..i]) + Separator
    {
      var piece := QueryPiece(terms[i]);
      PrefixSnoc(pieces, i);
      if i > 0 {
        JoinOrSnoc(pieces[..i], piece);
      }
      s := s + piece + Separator;
    }
    assert pieces[..|terms|] == pieces;
    if terms != [] {
      DropsAppendedSeparator(JoinOr(QueryPieces(terms)));
    }
    r := Strip(DropTrailingSeparator(s));
    StrippedEndsWithoutSeparator(DropTrailingSeparator(s));
  }
}
