/**
  How a collection run lays records out over its output documents. Each
  readable file becomes one record; a record is never split. Before a record
  is written the writer rotates to a new document when the bytes already in
  the current document plus the record's UTF-8 size exceed the budget
  (`max_file_size` KB, that is `max_file_size * 1024` bytes).

  The specification is the function `PlaceAll`, which lays out a list of
  records; the class `ChunkWriter` holds the run's writing state and is proved
  to follow it.
*/
module Chunking {
  import opened Seqs
  import opened StrOps
  import opened PathOps

  /** Bytes UTF-8 uses for one Unicode scalar value. */
  function Utf8Width(c: char): nat {
    if c as int < 0x80 then 1
    else if c as int < 0x800 then 2
    else if c as int < 0x10000 then 3
    else 4
  }

  /** `len(s.encode("utf-8"))`. */
  function Utf8Length(s: string): (n: nat)
    ensures |s| <= n <= 4 * |s|
  {
    if s == [] then 0 else Utf8Width(s[0]) + Utf8Length(s[1..])
  }

  lemma {:induction false} Utf8LengthAppend(a: string, b: string)
    ensures Utf8Length(a + b) == Utf8Length(a) + Utf8Length(b)
    decreases |a|
  {
    if a == [] {
      assert a + b == b;
    } else {
      Utf8LengthAppend(a[1..], b);
      assert (a + b)[0] == a[0];
      assert (a + b)[1..] == a[1..] + b;
    }
  }

  /** The record written for one file: `f"File: {file_path}\n{content}\n\n"`. */
  function Record(path: string, content: string): string {
    "File: " + path + "\n" + content + "\n\n"
  }

  /**
    A record is a header line `File: <path>`, the content as read, and a
    blank line: nine characters of framing around the path and the content.
  */
  lemma RecordFormat(path: string, content: string)
    ensures var r := Record(path, content);
      && |r| == |path| + |content| + 9
      && r[..6] == "File: " && r[6..6 + |path|] == path && r[6 + |path|] == '\n'
      && r[7 + |path|..|r| - 2] == content && r[|r| - 2..] == "\n\n"
  {
  }

  /** The text of several writes, one after another. */
  function Concat(parts: seq<string>): string {
    if parts == [] then "" else parts[0] + Concat(parts[1..])
  }

  lemma {:induction false} ConcatAppend(a: seq<string>, b: seq<string>)
    ensures Concat(a + b) == Concat(a) + Concat(b)
    decreases |a|
  {
    if a == [] {
      assert a + b == b;
    } else {
      calc {
        Concat(a + b);
        == { assert (a + b)[0] == a[0] && (a + b)[1..] == a[1..] + b; }
        a[0] + Concat(a[1..] + b);
        == { ConcatAppend(a[1..], b); }
        a[0] + (Concat(a[1..]) + Concat(b));
        == { AppendAssoc(a[0], Concat(a[1..]), Concat(b)); }
        Concat(a) + Concat(b);
      }
    }
  }

  /** The records of all documents, in index order. */
  function Flatten(docs: seq<seq<string>>): seq<string> {
    if docs == [] then [] else docs[0] + Flatten(docs[1..])
  }

  lemma {:induction false} FlattenAppend(a: seq<seq<string>>, b: seq<seq<string>>)
    ensures Flatten(a + b) == Flatten(a) + Flatten(b)
    decreases |a|
  {
    if a == [] {
      assert a + b == b;
    } else {
      calc {
        Flatten(a + b);
        == { assert (a + b)[0] == a[0] && (a + b)[1..] == a[1..] + b; }
        a[0] + Flatten(a[1..] + b);
        == { FlattenAppend(a[1..], b); }
        a[0] + (Flatten(a[1..]) + Flatten(b));
        == { AppendAssoc(a[0], Flatten(a[1..]), Flatten(b)); }
        Flatten(a) + Flatten(b);
      }
    }
  }

  /** A record of any document is one of the flattened records. */
  lemma {:induction false} FlattenHolds(docs: seq<seq<string>>, i: nat, k: nat)
    requires i < |docs| && k < |docs[i]|
    ensures docs[i][k] in Flatten(docs)
    decreases i
  {
    if i > 0 {
      FlattenHolds(docs[1..], i - 1, k);
      assert docs[1..][i - 1] == docs[i];
    }
  }

  /** The text of each document. */
  function Texts(docs: seq<seq<string>>): (texts: seq<string>)
    ensures |texts| == |docs|
  {
    if docs == [] then [] else [Concat(docs[0])] + Texts(docs[1..])
  }

  lemma {:induction false} TextsAppend(a: seq<seq<string>>, b: seq<seq<string>>)
    ensures Texts(a + b) == Texts(a) + Texts(b)
    decreases |a|
  {
    if a == [] {
      assert a + b == b;
    } else {
      calc {
        Texts(a + b);
        == { assert (a + b)[0] == a[0] && (a + b)[1..] == a[1..] + b; }
        [Concat(a[0])] + Texts(a[1..] + b);
        == { TextsAppend(a[1..], b); }
        [Concat(a[0])] + (Texts(a[1..]) + Texts(b));
        == { AppendAssoc([Concat(a[0])], Texts(a[1..]), Texts(b)); }
        Texts(a) + Texts(b);
      }
    }
  }

  lemma {:induction false} TextsIndex(docs: seq<seq<string>>)
    ensures forall i :: 0 <= i < |docs| ==> Texts(docs)[i] == Concat(docs[i])
    decreases |docs|
  {
    if docs != [] {
      TextsIndex(docs[1..]);
      assert forall i :: 1 <= i < |docs| ==> docs[1..][i - 1] == docs[i];
    }
  }

  /** Reading the documents one after another gives the records one after another. */
  lemma {:induction false} TextsConcat(docs: seq<seq<string>>)
    ensures Concat(Texts(docs)) == Concat(Flatten(docs))
    decreases |docs|
  {
    if docs != [] {
      TextsConcat(docs[1..]);
      ConcatAppend(docs[0], Flatten(docs[1..]));
    }
  }

  /** The records placed in each document so far, and the bytes in the last, open one. */
  datatype Layout = Layout(docs: seq<seq<string>>, collected: nat)

  /** Writing one record: rotate when it does not fit, then append it to the open document. */
  function Place(st: Layout, rec: string, maxBytes: int): Layout
    requires |st.docs| >= 1
  {
    var size := Utf8Length(rec);
    if st.collected + size > maxBytes then Layout(st.docs + [[rec]], size)
    else Layout(st.docs[..|st.docs| - 1] + [st.docs[|st.docs| - 1] + [rec]], st.collected + size)
  }

  lemma FlattenOne(doc: seq<string>)
    ensures Flatten([doc]) == doc
  {
    calc {
      Flatten([doc]);
      == { assert [doc][1..] == []; }
      doc + Flatten([]);
      == { AppendEmpty(doc); }
      doc;
    }
  }

  lemma ConcatOne(rec: string)
    ensures Concat([rec]) == rec
  {
    calc {
      Concat([rec]);
      == { assert [rec][1..] == []; }
      rec + Concat([]);
      == { AppendEmpty(rec); }
      rec;
    }
  }

  /** Placing a record appends it to the records of the layout, and keeps the running size right. */
  lemma PlaceAppends(st: Layout, rec: string, maxBytes: int)
    requires |st.docs| >= 1
    requires st.collected == Utf8Length(Concat(st.docs[|st.docs| - 1]))
    ensures var st' := Place(st, rec, maxBytes);
      && |st'.docs| >= 1
      && Flatten(st'.docs) == Flatten(st.docs) + [rec]
      && st'.collected == Utf8Length(Concat(st'.docs[|st'.docs| - 1]))
  {
    var n := |st.docs|;
    var last := st.docs[n - 1];
    var init := st.docs[..n - 1];
    var st' := Place(st, rec, maxBytes);
    ConcatOne(rec);
    if st.collected + Utf8Length(rec) > maxBytes {
      assert st'.docs == st.docs + [[rec]];
      FlattenAppend(st.docs, [[rec]]);
      FlattenOne([rec]);
    } else {
      assert st'.docs == init + [last + [rec]];
      calc {
        Flatten(st'.docs);
        == { FlattenAppend(init, [last + [rec]]); FlattenOne(last + [rec]); }
        Flatten(init) + (last + [rec]);
        == { AppendAssoc(Flatten(init), last, [rec]); }
        (Flatten(init) + last) + [rec];
        == { LastSplit(st.docs); FlattenAppend(init, [last]); FlattenOne(last); }
        Flatten(st.docs) + [rec];
      }
      ConcatAppend(last, [rec]);
      Utf8LengthAppend(Concat(last), rec);
    }
  }

  /**
    A write rotates exactly when the record does not fit: it then opens one
    new document holding just the record; otherwise the record goes at the
    end of the open document. The closed documents are never touched.
  */
  lemma PlaceShape(st: Layout, rec: string, maxBytes: int)
    requires |st.docs| >= 1
    ensures var n, docs' := |st.docs|, Place(st, rec, maxBytes).docs;
      && (|docs'| == n + 1 <==> st.collected + Utf8Length(rec) > maxBytes)
      && (|docs'| == n || |docs'| == n + 1)
      && docs'[..n - 1] == st.docs[..n - 1]
      && (|docs'| == n + 1 ==> docs'[n - 1] == st.docs[n - 1] && docs'[n] == [rec])
      && (|docs'| == n ==> docs'[n - 1] == st.docs[n - 1] + [rec])
  {
    var n := |st.docs|;
    if st.collected + Utf8Length(rec) > maxBytes {
      assert (st.docs + [[rec]])[..n - 1] == st.docs[..n - 1];
    }
  }

  /**
    The layout after writing `records` in order, starting from one empty
    document: every record lands in exactly one document, in order, and the
    running size is the UTF-8 size of the open document.
  */
  function PlaceAll(records: seq<string>, maxBytes: int): (st: Layout)
    ensures |st.docs| >= 1
    ensures Flatten(st.docs) == records
    ensures st.collected == Utf8Length(Concat(st.docs[|st.docs| - 1]))
  {
    if records == [] then Layout([[]], 0)
    else
      var prefix := records[..|records| - 1];
      var prev := PlaceAll(prefix, maxBytes);
      var rec := records[|records| - 1];
      PlaceAppends(prev, rec, maxBytes);
      LastSplit(records);
      Place(prev, rec, maxBytes)
  }


  /** Only the first document can be empty. */
  ghost predicate OnlyFirstEmpty(docs: seq<seq<string>>) {
    forall i :: 0 < i < |docs| ==> docs[i] != []
  }

  /** A document was closed only because the next record did not fit after it. */
  ghost predicate ClosedWhenFull(docs: seq<seq<string>>, maxBytes: int) {
    forall i :: 0 < i < |docs| && docs[i] != [] ==> Utf8Length(Concat(docs[i - 1])) + Utf8Length(docs[i][0]) > maxBytes
  }

  /**
    Inside a document every record after the first fitted when it was
    written, and so did the first record of the first document.
  */
  ghost predicate FittedWhenWritten(docs: seq<seq<string>>, maxBytes: int) {
    forall i, k :: 0 <= i < |docs| && 1 <= k <= |docs[i]| && (k >= 2 || i == 0) ==>
      Utf8Length(Concat(docs[i][..k])) <= maxBytes
  }

  /** The rotation rule, stated over a whole layout. */
  ghost predicate Greedy(docs: seq<seq<string>>, maxBytes: int) {
    |docs| >= 1 && OnlyFirstEmpty(docs) && ClosedWhenFull(docs, maxBytes) && FittedWhenWritten(docs, maxBytes)
  }

  lemma RotateKeepsGreedy(docs: seq<seq<string>>, rec: string, maxBytes: int)
    requires Greedy(docs, maxBytes)
    requires Utf8Length(Concat(docs[|docs| - 1])) + Utf8Length(rec) > maxBytes
    ensures Greedy(docs + [[rec]], maxBytes)
  {
    var docs' := docs + [[rec]];
    var n := |docs|;
    assert forall i :: 0 <= i < n ==> docs'[i] == docs[i];
    assert docs'[n] == [rec];
    assert OnlyFirstEmpty(docs');
    assert ClosedWhenFull(docs', maxBytes);
    assert FittedWhenWritten(docs', maxBytes);
  }

  lemma AppendKeepsGreedy(docs: seq<seq<string>>, rec: string, maxBytes: int)
    requires Greedy(docs, maxBytes)
    requires Utf8Length(Concat(docs[|docs| - 1])) + Utf8Length(rec) <= maxBytes
    ensures Greedy(docs[..|docs| - 1] + [docs[|docs| - 1] + [rec]], maxBytes)
  {
    var last := docs[|docs| - 1];
    AppendKeepsClosed(docs, rec, maxBytes);
    assert Utf8Length(Concat(last + [rec])) <= maxBytes by {
      ConcatAppend(last, [rec]);
      ConcatOne(rec);
      Utf8LengthAppend(Concat(last), rec);
    }
    AppendKeepsFitted(docs, rec, maxBytes);
  }

  /** Appending to the open document leaves the earlier documents, and the first record of the open one, alone. */
  lemma AppendKeepsClosed(docs: seq<seq<string>>, rec: string, maxBytes: int)
    requires |docs| >= 1 && OnlyFirstEmpty(docs) && ClosedWhenFull(docs, maxBytes)
    ensures var docs' := docs[..|docs| - 1] + [docs[|docs| - 1] + [rec]];
      OnlyFirstEmpty(docs') && ClosedWhenFull(docs', maxBytes)
  {
    var n := |docs|;
    var last := docs[n - 1];
    var docs' := docs[..n - 1] + [last + [rec]];
    assert forall i :: 0 <= i < n - 1 ==> docs'[i] == docs[i];
    assert docs'[n - 1] == last + [rec];
    assert last != [] ==> (last + [rec])[0] == last[0];
  }

  /** Appending a record that fits keeps every prefix of the open document within the budget. */
  lemma AppendKeepsFitted(docs: seq<seq<string>>, rec: string, maxBytes: int)
    requires |docs| >= 1 && FittedWhenWritten(docs, maxBytes)
    requires Utf8Length(Concat(docs[|docs| - 1] + [rec])) <= maxBytes
    ensures FittedWhenWritten(docs[..|docs| - 1] + [docs[|docs| - 1] + [rec]], maxBytes)
  {
    var n := |docs|;
    var last := docs[n - 1];
    var docs' := docs[..n - 1] + [last + [rec]];
    forall i, k | 0 <= i < n && 1 <= k <= |docs'[i]| && (k >= 2 || i == 0)
      ensures Utf8Length(Concat(docs'[i][..k])) <= maxBytes
    {
      if i < n - 1 {
        assert docs'[i] == docs[i];
      } else {
        assert docs'[i] == last + [rec];
        PrefixOfSnoc(last, rec, k);
      }
    }
  }

  lemma PrefixOfSnoc(last: seq<string>, rec: string, k: nat)
    requires k <= |last| + 1
    ensures k <= |last| ==> (last + [rec])[..k] == last[..k]
    ensures k == |last| + 1 ==> (last + [rec])[..k] == last + [rec]
  {
  }

  lemma PlaceKeepsGreedy(st: Layout, rec: string, maxBytes: int)
    requires Greedy(st.docs, maxBytes)
    requires st.collected == Utf8Length(Concat(st.docs[|st.docs| - 1]))
    ensures Greedy(Place(st, rec, maxBytes).docs, maxBytes)
  {
    if st.collected + Utf8Length(rec) > maxBytes {
      RotateKeepsGreedy(st.docs, rec, maxBytes);
    } else {
      AppendKeepsGreedy(st.docs, rec, maxBytes);
    }
  }

  /** Every layout the writer can reach follows the rotation rule. */
  lemma {:induction false} PlaceAllIsGreedy(records: seq<string>, maxBytes: int)
    ensures Greedy(PlaceAll(records, maxBytes).docs, maxBytes)
    decreases |records|
  {
    if records != [] {
      var prefix := records[..|records| - 1];
      PlaceAllIsGreedy(prefix, maxBytes);
      PlaceKeepsGreedy(PlaceAll(prefix, maxBytes), records[|records| - 1], maxBytes);
    }
  }

  /**
    A document goes over the budget only when it holds a single record that
    alone is over the budget.
  */
  lemma DocumentsWithinBudget(records: seq<string>, maxBytes: int)
    ensures forall i :: 0 <= i < |PlaceAll(records, maxBytes).docs| ==>
      var doc := PlaceAll(records, maxBytes).docs[i];
      Utf8Length(Concat(doc)) <= maxBytes || (|doc| == 1 && Utf8Length(doc[0]) > maxBytes) || doc == []
  {
    var docs := PlaceAll(records, maxBytes).docs;
    PlaceAllIsGreedy(records, maxBytes);
    forall i | 0 <= i < |docs|
      ensures Utf8Length(Concat(docs[i])) <= maxBytes || (|docs[i]| == 1 && Utf8Length(docs[i][0]) > maxBytes) || docs[i] == []
    {
      var doc := docs[i];
      assert doc[..|doc|] == doc;
      if |doc| == 1 {
        assert Concat(doc) == doc[0];
      }
    }
  }

  /**
    The first document stays empty exactly when there is no record or the
    first record alone is over the budget; every later document holds at
    least one record.
  */
  lemma FirstDocumentEmptyIff(records: seq<string>, maxBytes: int)
    ensures var docs := PlaceAll(records, maxBytes).docs;
      && (docs[0] == [] <==> records == [] || Utf8Length(records[0]) > maxBytes)
      && (forall i :: 0 < i < |docs| ==> docs[i] != [])
  {
    var docs := PlaceAll(records, maxBytes).docs;
    PlaceAllIsGreedy(records, maxBytes);
    assert Flatten(docs) == docs[0] + Flatten(docs[1..]);
    if docs[0] != [] {
      assert records[0] == docs[0][0];
      assert docs[0][..1] == [records[0]];
      ConcatOne(records[0]);
    } else if records != [] {
      assert |docs| > 1;
      assert Flatten(docs[1..]) == docs[1] + Flatten(docs[2..]);
      assert records[0] == docs[1][0];
    }
  }

  /**
    The same fact about the texts of the documents: each text is within the
    budget, or is one record over the budget on its own, or is the empty
    first document.
  */
  lemma TextsWithinBudget(records: seq<string>, maxBytes: int)
    ensures var texts := Texts(PlaceAll(records, maxBytes).docs);
      forall i :: 0 <= i < |texts| ==>
        Utf8Length(texts[i]) <= maxBytes || (texts[i] in records && Utf8Length(texts[i]) > maxBytes) || (i == 0 && texts[i] == "")
  {
    var docs := PlaceAll(records, maxBytes).docs;
    var texts := Texts(docs);
    TextsIndex(docs);
    DocumentsWithinBudget(records, maxBytes);
    FirstDocumentEmptyIff(records, maxBytes);
    forall i | 0 <= i < |texts|
      ensures Utf8Length(texts[i]) <= maxBytes || (texts[i] in records && Utf8Length(texts[i]) > maxBytes) || (i == 0 && texts[i] == "")
    {
      var doc := docs[i];
      assert texts[i] == Concat(doc);
      if doc != [] {
        FlattenHolds(docs, i, 0);
      }
      OneDocumentText(doc, records, maxBytes);
    }
  }

  /** A document of a single record has that record as its text. */
  lemma OneDocumentText(doc: seq<string>, records: seq<string>, maxBytes: int)
    requires Utf8Length(Concat(doc)) <= maxBytes || (|doc| == 1 && Utf8Length(doc[0]) > maxBytes) || doc == []
    requires doc != [] ==> doc[0] in records
    ensures Utf8Length(Concat(doc)) <= maxBytes || (Concat(doc) in records && Utf8Length(Concat(doc)) > maxBytes) || doc == []
  {
    if |doc| == 1 {
      assert doc[1..] == [];
      assert doc[0] + "" == doc[0];
    }
  }

  /**
    When no record is empty, the first text is empty exactly when no record
    fitted in the first document.
  */
  lemma FirstTextEmptyIff(records: seq<string>, maxBytes: int)
    requires forall k :: 0 <= k < |records| ==> records[k] != ""
    ensures Texts(PlaceAll(records, maxBytes).docs)[0] == "" <==> records == [] || Utf8Length(records[0]) > maxBytes
  {
    var docs := PlaceAll(records, maxBytes).docs;
    TextsIndex(docs);
    FirstDocumentEmptyIff(records, maxBytes);
    if docs[0] != [] {
      assert Flatten(docs) == docs[0] + Flatten(docs[1..]);
      assert docs[0][0] == records[0];
      assert Concat(docs[0]) == docs[0][0] + Concat(docs[0][1..]);
    }
  }

  /** The document with index `index`: `os.path.join(output_path, f"output_{index}.txt")`. */
  function DocPath(outputPath: string, index: nat): (path: string)
    ensures outputPath <= path
    ensures |path| >= |"output_" + DecimalString(index) + ".txt"|
    ensures path[|path| - |"output_" + DecimalString(index) + ".txt"|..] == "output_" + DecimalString(index) + ".txt"
  {
    JoinPath(outputPath, "output_" + DecimalString(index) + ".txt")
  }

  /** The paths of documents 1 to `count`, in index order. */
  function DocPaths(outputPath: string, count: nat): (paths: seq<string>)
    ensures |paths| == count
  {
    if count == 0 then [] else DocPaths(outputPath, count - 1) + [DocPath(outputPath, count)]
  }

  lemma {:induction false} DocPathsIndex(outputPath: string, count: nat)
    ensures forall i :: 0 <= i < count ==> DocPaths(outputPath, count)[i] == DocPath(outputPath, i + 1)
    decreases count
  {
    if count > 0 {
      DocPathsIndex(outputPath, count - 1);
    }
  }

  /** Different indices name different documents. */
  lemma DocPathInjective(outputPath: string, m: nat, n: nat)
    requires DocPath(outputPath, m) == DocPath(outputPath, n)
    ensures m == n
  {
    var x := "output_" + DecimalString(m) + ".txt";
    var y := "output_" + DecimalString(n) + ".txt";
    assert x[0] == 'o' && y[0] == 'o';
    JoinPathInjective(outputPath, x, y);
    assert DecimalString(m) == x[7..|x| - 4];
    assert DecimalString(n) == y[7..|y| - 4];
    DecimalStringInjective(m, n);
  }

  /** No two documents of a run share a path. */
  lemma DocPathsDistinct(outputPath: string, count: nat)
    ensures forall i, j :: 0 <= i < j < count ==> DocPaths(outputPath, count)[i] != DocPaths(outputPath, count)[j]
  {
    forall i, j | 0 <= i < j < count
      ensures DocPaths(outputPath, count)[i] != DocPaths(outputPath, count)[j]
    {
      DocPathsDiffer(outputPath, count, i, j);
    }
  }

  lemma DocPathsDiffer(outputPath: string, count: nat, i: nat, j: nat)
    requires i < j < count
    ensures DocPaths(outputPath, count)[i] != DocPaths(outputPath, count)[j]
  {
    DocPathsIndex(outputPath, count);
    if DocPath(outputPath, i + 1) == DocPath(outputPath, j + 1) {
      DocPathInjective(outputPath, i + 1, j + 1);
    }
  }

  lemma PlaceAllSnoc(records: seq<string>, rec: string, maxBytes: int)
    ensures PlaceAll(records + [rec], maxBytes) == Place(PlaceAll(records, maxBytes), rec, maxBytes)
  {
    assert (records + [rec])[..|records|] == records;
  }

  /** What placing a record does to the text of the documents. */
  lemma PlaceTexts(st: Layout, rec: string, maxBytes: int)
    requires |st.docs| >= 1
    ensures var n, texts := |st.docs|, Texts(st.docs);
      Texts(Place(st, rec, maxBytes).docs) ==
        if st.collected + Utf8Length(rec) > maxBytes then texts + [rec]
        else texts[..n - 1] + [texts[n - 1] + rec]
  {
    var n := |st.docs|;
    var last := st.docs[n - 1];
    var init := st.docs[..n - 1];
    ConcatOne(rec);
    assert init + [last] == st.docs;
    TextsAppend(init, [last]);
    if st.collected + Utf8Length(rec) > maxBytes {
      TextsAppend(st.docs, [[rec]]);
    } else {
      TextsAppend(init, [last + [rec]]);
      ConcatAppend(last, [rec]);
    }
  }

  /**
    What a collection run's writer shows: `collected_size` (kept in bytes),
    `file_index`, `output_file_paths`, and the text of every document opened
    so far, the last one being the open document.
  */
  datatype WriterState = WriterState(collected: nat, fileIndex: nat, paths: seq<string>, documents: seq<string>)

  /** The writing state a layout corresponds to, documents being named under `outputPath`. */
  function View(st: Layout, outputPath: string): WriterState {
    WriterState(st.collected, |st.docs|, DocPaths(outputPath, |st.docs|), Texts(st.docs))
  }

  /**
    One write seen on the writing state: when the record does not fit, the
    next document is opened and the record is its whole text; otherwise the
    record is appended to the open document.
  */
  function Step(w: WriterState, rec: string, maxBytes: int, outputPath: string): WriterState
    requires 1 <= w.fileIndex == |w.documents|
  {
    var size := Utf8Length(rec);
    if w.collected + size > maxBytes then
      WriterState(size, w.fileIndex + 1, w.paths + [DocPath(outputPath, w.fileIndex + 1)], w.documents + [rec])
    else
      WriterState(w.collected + size, w.fileIndex, w.paths,
                  w.documents[..w.fileIndex - 1] + [w.documents[w.fileIndex - 1] + rec])
  }

  /**
    A step keeps `file_index` the number of documents, adds exactly the record
    to what the documents hold, and moves on to the next document path only
    when it rotates.
  */
  lemma StepWritesRecord(w: WriterState, rec: string, maxBytes: int, outputPath: string)
    requires 1 <= w.fileIndex == |w.documents|
    ensures var w' := Step(w, rec, maxBytes, outputPath);
      && 1 <= w'.fileIndex == |w'.documents|
      && Concat(w'.documents) == Concat(w.documents) + rec
      && (w.collected + Utf8Length(rec) > maxBytes ==>
            w'.fileIndex == w.fileIndex + 1 && w'.paths == w.paths + [DocPath(outputPath, w'.fileIndex)] && w'.collected == Utf8Length(rec))
      && (w.collected + Utf8Length(rec) <= maxBytes ==>
            w'.fileIndex == w.fileIndex && w'.paths == w.paths && w'.collected == w.collected + Utf8Length(rec))
  {
    var docs := w.documents;
    var n := |docs|;
    var w' := Step(w, rec, maxBytes, outputPath);
    if w.collected + Utf8Length(rec) > maxBytes {
      ConcatAppend(docs, [rec]);
      ConcatOne(rec);
    } else {
      var init, last := docs[..n - 1], docs[n - 1];
      calc {
        Concat(w'.documents);
        == { ConcatAppend(init, [last + rec]); ConcatOne(last + rec); }
        Concat(init) + (last + rec);
        == { AppendAssoc(Concat(init), last, rec); }
        (Concat(init) + last) + rec;
        == { LastSplit(docs); ConcatAppend(init, [last]); ConcatOne(last); }
        Concat(docs) + rec;
      }
    }
  }

  /** Placing a record in the layout is taking one step on the writing state it corresponds to. */
  lemma ViewPlace(st: Layout, rec: string, maxBytes: int, outputPath: string)
    requires |st.docs| >= 1
    ensures View(Place(st, rec, maxBytes), outputPath) == Step(View(st, outputPath), rec, maxBytes, outputPath)
  {
    PlaceTexts(st, rec, maxBytes);
  }

  /**
    The writer of one collection run. `layout` records, for the proof, which
    records went into which document.
  */
  class ChunkWriter {
    const outputPath: string
    const maxBytes: int
    var collected: nat
    var fileIndex: nat
    var outputFilePaths: seq<string>
    var documents: seq<string>
    ghost var layout: Layout

    /** The fields show `layout`, and `collected` is the UTF-8 size of the open document. */
    ghost predicate Valid()
      reads this
    {
      && |layout.docs| >= 1
      && layout.collected == Utf8Length(Concat(layout.docs[|layout.docs| - 1]))
      && State() == View(layout, outputPath)
    }

    /** The fields that change as records are written. */
    function State(): WriterState
      reads this
    {
      WriterState(collected, fileIndex, outputFilePaths, documents)
    }

    /** Open `output_1.txt`, empty, with nothing collected. */
    constructor (outputPath: string, maxBytes: int)
      ensures Valid()
      ensures this.outputPath == outputPath && this.maxBytes == maxBytes
      ensures layout == PlaceAll([], maxBytes)
      ensures collected == 0 && fileIndex == 1
      ensures outputFilePaths == [DocPath(outputPath, 1)] && documents == [""]
    {
      this.outputPath := outputPath;
      this.maxBytes := maxBytes;
      collected := 0;
      fileIndex := 1;
      outputFilePaths := [DocPath(outputPath, 1)];
      documents := [""];
      layout := Layout([[]], 0);
    }

    /** Write one record whole, rotating first when it does not fit. */
    method Write(record: string)
      requires Valid()
      modifies this
      ensures Valid()
      ensures layout == Place(old(layout), record, maxBytes)
      ensures State() == Step(old(State()), record, maxBytes, outputPath)
    {
      ghost var before, next := State(), Place(layout, record, maxBytes);
      PlaceAppends(layout, record, maxBytes);
      ViewPlace(layout, record, maxBytes, outputPath);
      assert View(next, outputPath) == Step(before, record, maxBytes, outputPath);
      var size := Utf8Length(record);
      if collected + size > maxBytes {
        // close the open document and open the next one; the record is its first text
        fileIndex, outputFilePaths, documents, collected :=
          fileIndex + 1, outputFilePaths + [DocPath(outputPath, fileIndex + 1)], documents + [record], size;
        assert State() == Step(before, record, maxBytes, outputPath);
      } else {
        documents, collected := documents[..fileIndex - 1] + [documents[fileIndex - 1] + record], collected + size;
        assert State() == Step(before, record, maxBytes, outputPath);
      }
      layout := next;
    }
  }
}
