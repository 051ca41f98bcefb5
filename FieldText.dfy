/**
 * How the planet editor shows a list field (attributes, shipyard, outfitter)
 * in one line of text and reads it back: PlanetView::ToString joins the items
 * with ", ", and PlanetView::ToList splits the text at every ',', drops empty
 * pieces and trims white space from the rest (QString::split with
 * SkipEmptyParts, then QString::trimmed).
 */
module FieldText {

  /** QChar::isSpace: U+0009..U+000D, U+0085 and the Unicode separators (Zs, Zl, Zp). */
  predicate IsSpace(c: char)
  {
    || c == ' ' || '\t' <= c <= '\r' || c == '\U{85}' || c == '\U{A0}' || c == '\U{1680}'
    || '\U{2000}' <= c <= '\U{200A}' || c == '\U{2028}' || c == '\U{2029}' || c == '\U{202F}'
    || c == '\U{205F}' || c == '\U{3000}'
  }

  /** No white space at either end. */
  predicate IsTrimmed(s: string)
  {
    s == [] || (!IsSpace(s[0]) && !IsSpace(s[|s| - 1]))
  }

  /** `s` without its leading white space. */
  function TrimStart(s: string): (r: string)
    ensures |r| <= |s| && r == s[|s| - |r|..]
    ensures r == [] || !IsSpace(r[0])
    ensures forall k :: 0 <= k < |s| - |r| ==> IsSpace(s[k])
  {
    if s != [] && IsSpace(s[0]) then TrimStart(s[1..]) else s
  }

  /** `s` without its trailing white space. */
  function TrimEnd(s: string): (r: string)
    ensures |r| <= |s| && r == s[..|r|]
    ensures r == [] || !IsSpace(r[|r| - 1])
    ensures forall k :: |r| <= k < |s| ==> IsSpace(s[k])
  {
    if s != [] && IsSpace(s[|s| - 1]) then TrimEnd(s[..|s| - 1]) else s
  }

  /** `r` occurs in `s` at position `i`, with only white space before and after it. */
  predicate Framed(s: string, i: nat, r: string)
  {
    && i + |r| <= |s|
    && r == s[i..i + |r|]
    && (forall k :: 0 <= k < i ==> IsSpace(s[k]))
    && (forall k :: i + |r| <= k < |s| ==> IsSpace(s[k]))
  }

  /** QString::trimmed: white space removed from both ends (TrimFramed: and nothing else). */
  function Trim(s: string): (r: string)
    ensures IsTrimmed(r)
    ensures (forall k :: 0 <= k < |s| ==> IsSpace(s[k])) ==> r == []
    ensures IsTrimmed(s) ==> r == s
  {
    var front := TrimStart(s);
    var r := TrimEnd(front);
    assert r != [] ==> r[0] == front[0];
    r
  }

  /**
   * Trimming changes nothing else: the result is the piece of `s` that starts
   * right after the leading white space and ends before the trailing white
   * space.
   */
  lemma TrimFramed(s: string)
    ensures Framed(s, |s| - |TrimStart(s)|, Trim(s))
  {
    var front := TrimStart(s);
    var r := TrimEnd(front);
    assert Trim(s) == r;
    FramedPiece(s, front, r);
  }

  /** A prefix, followed by white space only, of a suffix preceded by white space only is framed. */
  lemma FramedPiece(s: string, front: string, r: string)
    requires |front| <= |s| && front == s[|s| - |front|..]
    requires forall k :: 0 <= k < |s| - |front| ==> IsSpace(s[k])
    requires |r| <= |front| && r == front[..|r|]
    requires forall k :: |r| <= k < |front| ==> IsSpace(front[k])
    ensures Framed(s, |s| - |front|, r)
  {
    var i := |s| - |front|;
    assert r == s[i..i + |r|];
    forall k | i + |r| <= k < |s|
      ensures IsSpace(s[k])
    {
      assert s[k] == front[k - i];
    }
  }

  // ---------------------------------------------------------------- ToString

  /** ", " followed by each item, in order. */
  function Rest(items: seq<string>): string
  {
    if items == [] then "" else ", " + items[0] + Rest(items[1..])
  }

  /** The text PlanetView::ToString builds: "" for no items, else the items joined by ", ". */
  function Joined(items: seq<string>): (r: string)
    ensures items == [] ==> r == ""
    ensures |items| == 1 ==> r == items[0]
  {
    if items == [] then "" else items[0] + Rest(items[1..])
  }

  lemma {:induction false} RestSnoc(items: seq<string>, x: string)
    ensures Rest(items + [x]) == Rest(items) + ", " + x
  {
    if items != [] {
      assert (items + [x])[1..] == items[1..] + [x];
      RestSnoc(items[1..], x);
    } else {
      assert Rest([x]) == ", " + x + Rest([]);
    }
  }

  /** PlanetView::ToString: the first item, then ", " and each further item. */
  method ToString(items: seq<string>) returns (result: string)
    ensures result == Joined(items)
  {
    if |items| == 0 {
      return "";
    }
    result := items[0];
    for i := 1 to |items|
      invariant result == items[0] + Rest(items[1..i])
    {
      assert items[1..i + 1] == items[1..i] + [items[i]];
      RestSnoc(items[1..i], items[i]);
      result := result + ", " + items[i];
    }
    assert items[1..|items|] == items[1..];
  }

  // ---------------------------------------------------------------- ToList

  /** QString::split at ',', keeping empty pieces: one more piece than there are commas. */
  function Segments(s: string): (r: seq<string>)
    ensures |r| >= 1
    ensures forall i :: 0 <= i < |r| ==> ',' !in r[i]
  {
    if s == [] then [""]
    else
      var rest := Segments(s[1..]);
      if s[0] == ',' then [""] + rest else [[s[0]] + rest[0]] + rest[1..]
  }

  /** The pieces joined back with ','. */
  function JoinedWithComma(parts: seq<string>): string
    requires |parts| >= 1
  {
    if |parts| == 1 then parts[0] else parts[0] + [','] + JoinedWithComma(parts[1..])
  }

  /** Splitting at ',' loses nothing: joining the pieces with ',' gives the text back. */
  lemma {:induction false} SegmentsJoinBack(s: string)
    ensures JoinedWithComma(Segments(s)) == s
  {
    if s != [] {
      var rest := Segments(s[1..]);
      SegmentsJoinBack(s[1..]);
      if s[0] == ',' {
        assert Segments(s)[1..] == rest;
      } else {
        var r := Segments(s);
        assert r[0] == [s[0]] + rest[0];
        if |rest| == 1 {
          assert r == [[s[0]] + rest[0]];
        } else {
          assert r[1..] == rest[1..];
          assert JoinedWithComma(rest) == rest[0] + [','] + JoinedWithComma(rest[1..]);
        }
      }
    }
  }

  /** The pieces that are not empty, in order (QString::SkipEmptyParts). */
  function NonEmpty(parts: seq<string>): (r: seq<string>)
    ensures forall i :: 0 <= i < |r| ==> r[i] != ""
    ensures forall p :: p in r <==> p in parts && p != ""
    ensures (forall i :: 0 <= i < |parts| ==> parts[i] != "") ==> r == parts
  {
    if parts == [] then []
    else (if parts[0] == "" then [] else [parts[0]]) + NonEmpty(parts[1..])
  }

  /** Every non-empty piece is kept as often as it occurs. */
  lemma {:induction false} NonEmptyCounts(parts: seq<string>)
    ensures multiset(NonEmpty(parts)) == multiset(parts)["" := 0]
  {
    if parts != [] {
      assert parts == [parts[0]] + parts[1..];
      NonEmptyCounts(parts[1..]);
    }
  }

  /** Dropping the empty pieces keeps the order of the others: it works piece by piece. */
  lemma {:induction false} NonEmptyAppend(a: seq<string>, b: seq<string>)
    ensures NonEmpty(a + b) == NonEmpty(a) + NonEmpty(b)
  {
    if a != [] {
      var head := if a[0] == "" then [] else [a[0]];
      assert (a + b)[0] == a[0] && (a + b)[1..] == a[1..] + b;
      assert NonEmpty(a + b) == head + NonEmpty(a[1..] + b);
      NonEmptyAppend(a[1..], b);
    } else {
      assert a + b == b;
    }
  }

  /** Each piece trimmed, in order. */
  function TrimAll(parts: seq<string>): (r: seq<string>)
    ensures |r| == |parts|
    ensures forall i :: 0 <= i < |parts| ==> r[i] == Trim(parts[i])
  {
    seq(|parts|, i requires 0 <= i < |parts| => Trim(parts[i]))
  }

  /**
   * The list PlanetView::ToList reads from `str`: one token per non-empty
   * piece between commas, in order, each trimmed; a piece of white space only
   * gives an empty token.
   */
  function Tokens(str: string): (r: seq<string>)
    ensures forall i :: 0 <= i < |r| ==> ',' !in r[i] && IsTrimmed(r[i])
    ensures |r| <= |Segments(str)|
  {
    var parts := NonEmpty(Segments(str));
    assert forall i :: 0 <= i < |parts| ==> parts[i] in Segments(str);
    NonEmptyShorter(Segments(str));
    TrimAll(parts)
  }

  lemma {:induction false} NonEmptyShorter(parts: seq<string>)
    ensures |NonEmpty(parts)| <= |parts|
  {
    if parts != [] {
      NonEmptyShorter(parts[1..]);
    }
  }

  /** PlanetView::ToList: split, then append each piece trimmed. */
  method ToList(str: string) returns (result: seq<string>)
    ensures result == Tokens(str)
  {
    var strings := NonEmpty(Segments(str));
    ghost var trimmed := TrimAll(strings);
    assert Tokens(str) == trimmed;
    result := [];
    for i := 0 to |strings|
      invariant result == trimmed[..i]
    {
      assert trimmed[..i + 1] == trimmed[..i] + [trimmed[i]];
      result := result + [Trim(strings[i])];
    }
    assert trimmed[..|strings|] == trimmed;
  }

  // ---------------------------------------------------------------- round trip

  /** An item ToString and ToList carry unchanged: not empty, no comma, no white space at the ends. */
  predicate PlainItem(s: string)
  {
    s != "" && ',' !in s && IsTrimmed(s)
  }

  lemma {:induction false} SegmentsWithoutComma(a: string)
    requires ',' !in a
    ensures Segments(a) == [a]
  {
    if a != [] {
      SegmentsWithoutComma(a[1..]);
      assert [a[0]] + a[1..] == a;
    }
  }

  lemma {:induction false} SegmentsAtComma(a: string, b: string)
    requires ',' !in a
    ensures Segments(a + [','] + b) == [a] + Segments(b)
  {
    if a == [] {
      assert (a + [','] + b)[1..] == b;
    } else {
      assert (a + [','] + b)[1..] == a[1..] + [','] + b;
      SegmentsAtComma(a[1..], b);
      assert [a[0]] + a[1..] == a;
    }
  }

  /** Each item after the first, as ToList sees it before trimming: with the space of ", " in front. */
  function Spaced(items: seq<string>): (r: seq<string>)
    ensures |r| == |items|
    ensures forall i :: 0 <= i < |items| ==> r[i] == " " + items[i]
  {
    seq(|items|, i requires 0 <= i < |items| => " " + items[i])
  }

  lemma {:induction false} SegmentsOfRest(p: string, items: seq<string>)
    requires ',' !in p
    requires forall i :: 0 <= i < |items| ==> ',' !in items[i]
    ensures Segments(p + Rest(items)) == [p] + Spaced(items)
    decreases |items|
  {
    if items == [] {
      assert p + Rest(items) == p;
      SegmentsWithoutComma(p);
    } else {
      var head := " " + items[0];
      assert p + Rest(items) == p + [','] + (head + Rest(items[1..]));
      SegmentsAtComma(p, head + Rest(items[1..]));
      SegmentsOfRest(head, items[1..]);
      assert Spaced(items) == [head] + Spaced(items[1..]);
    }
  }

  lemma TrimAfterSpace(x: string)
    requires PlainItem(x)
    ensures Trim(" " + x) == x
  {
    assert (" " + x)[1..] == x;
    assert TrimStart(" " + x) == TrimStart(x) == x;
  }

  /**
   * Round trip: reading back the text shown for a list of plain items gives
   * the same list, so confirming an unedited list field changes nothing.
   */
  lemma ToListOfToString(items: seq<string>)
    requires forall i :: 0 <= i < |items| ==> PlainItem(items[i])
    ensures Tokens(Joined(items)) == items
  {
    if items != [] {
      var rest := items[1..];
      SegmentsOfRest(items[0], rest);
      var parts := [items[0]] + Spaced(rest);
      assert NonEmpty(parts) == parts;
      forall i | 0 <= i < |items|
        ensures Tokens(Joined(items))[i] == items[i]
      {
        if i > 0 {
          TrimAfterSpace(items[i]);
        }
      }
    }
  }

  /** A text without commas that is only white space reads back as one empty item. */
  lemma BlankTextGivesEmptyItem(s: string)
    requires s != [] && forall k :: 0 <= k < |s| ==> IsSpace(s[k])
    ensures Tokens(s) == [""]
  {
    assert ',' !in s by {
      assert !IsSpace(',');
    }
    SegmentsWithoutComma(s);
  }
}
