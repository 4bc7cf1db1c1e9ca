/**
  The text form of the three ignore lists. Saving a project turns each
  comma-separated field into a list (split on `,`, strip every piece, drop the
  empty ones); loading a project joins the list back with `,`.
*/
module IgnoreLists {
  import opened Seqs
  import opened StrOps

  /** An entry as saving produces it: non-empty, stripped, and free of commas. */
  predicate IsEntry(e: string) {
    e != "" && NoOuterSpace(e) && ',' !in e
  }

  predicate Normalized(entries: seq<string>) {
    forall k :: 0 <= k < |entries| ==> IsEntry(entries[k])
  }

  /** `[x.strip() for x in pieces if x.strip()]`. */
  function Clean(pieces: seq<string>): (entries: seq<string>)
    ensures |entries| <= |pieces|
    ensures forall k :: 0 <= k < |entries| ==> entries[k] != "" && NoOuterSpace(entries[k])
    ensures (forall k :: 0 <= k < |pieces| ==> ',' !in pieces[k]) ==> Normalized(entries)
  {
    if pieces == [] then []
    else
      var e := Strip(pieces[0]);
      var rest := Clean(pieces[1..]);
      assert forall k :: 1 <= k < |pieces| ==> pieces[1..][k - 1] == pieces[k];
      if e == "" then rest else [e] + rest
  }

  /** The first piece contributes its stripped text, unless that is empty. */
  lemma CleanCons(x: string, rest: seq<string>)
    ensures Clean([x] + rest) == (if Strip(x) == "" then [] else [Strip(x)]) + Clean(rest)
  {
    assert ([x] + rest)[0] == x && ([x] + rest)[1..] == rest;
  }

  lemma {:induction false} CleanAppend(a: seq<string>, b: seq<string>)
    ensures Clean(a + b) == Clean(a) + Clean(b)
    decreases |a|
  {
    if a == [] {
      assert a + b == b;
    } else {
      var x, tail := a[0], a[1..];
      var e := if Strip(x) == "" then [] else [Strip(x)];
      calc {
        Clean(a + b);
        == { assert a + b == [x] + (tail + b); CleanCons(x, tail + b); }
        e + Clean(tail + b);
        == { CleanAppend(tail, b); }
        e + (Clean(tail) + Clean(b));
        == { AppendAssoc(e, Clean(tail), Clean(b)); }
        (e + Clean(tail)) + Clean(b);
        == { assert a == [x] + tail; CleanCons(x, tail); }
        Clean(a) + Clean(b);
      }
    }
  }

  /** Pieces that are already entries pass through unchanged. */
  lemma {:induction false} CleanKeepsEntries(entries: seq<string>)
    requires Normalized(entries)
    ensures Clean(entries) == entries
    decreases |entries|
  {
    if entries != [] {
      StripOfPadded("", entries[0], "");
      assert "" + entries[0] + "" == entries[0];
      CleanKeepsEntries(entries[1..]);
    }
  }

  /** The list `save_project` stores for one ignore field. */
  function ParseIgnoreList(text: string): (entries: seq<string>)
    ensures Normalized(entries)
  {
    Clean(SplitOn(text, ','))
  }

  /** The text `load_project_settings` shows for one ignore list. */
  function FormatIgnoreList(entries: seq<string>): string {
    JoinWith(entries, ',')
  }

  /** Showing a saved list and saving it again gives the same list back. */
  lemma ParseFormatRoundTrip(entries: seq<string>)
    requires Normalized(entries)
    ensures ParseIgnoreList(FormatIgnoreList(entries)) == entries
  {
    if entries == [] {
      assert SplitOn("", ',') == [""];
      assert Strip("") == "" by { StripOfPadded("", "", ""); }
    } else {
      SplitOnJoinWith(entries, ',');
      CleanKeepsEntries(entries);
    }
  }

  /**
    Parsing keeps the order of the text and reads each side of a comma on its
    own: the entries of `a,b` are those of `a` followed by those of `b`.
  */
  lemma ParseKeepsOrder(a: string, b: string)
    ensures ParseIgnoreList(a + "," + b) == ParseIgnoreList(a) + ParseIgnoreList(b)
  {
    SplitOnConcat(a, b, ',');
    CleanAppend(SplitOn(a, ','), SplitOn(b, ','));
  }

  /** Saving what loading shows is a fixed point after the first save. */
  lemma ParseIsIdempotent(text: string)
    ensures ParseIgnoreList(FormatIgnoreList(ParseIgnoreList(text))) == ParseIgnoreList(text)
  {
    ParseFormatRoundTrip(ParseIgnoreList(text));
  }
}
