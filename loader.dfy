/** The document loader of the ingestion script: keep the ".txt" names of a
    directory listing, load each file, stamp every resulting document with
    its source filename and category, and concatenate the results, skipping
    files whose load fails.

    The file system and the text loader are inputs: a directory is an
    optional listing (None when it does not exist) and loading a file is a
    function from its name to an outcome. */
module Loader {
  import opened Wrappers
  import opened Classifier
  import opened Seqs

  /** A loaded document: its text and its metadata mapping. */
  datatype Document = Document(pageContent: string, metadata: map<string, string>)

  /** What loading one file gives: the loader raised, or it returned documents. */
  datatype LoadOutcome = LoadFailed | Loaded(docs: seq<Document>)

  /** The two errors that abort loading. */
  datatype LoadError = DirectoryNotFound | NoTxtFiles

  const SourceFileKey: string := "source_file"
  const DocTypeKey: string := "doc_type"
  const TxtSuffix: string := ".txt"

  /** Case-sensitive suffix test, as `str.endswith`: `s` is some prefix
      followed by `suffix`. */
  function EndsWith(s: string, suffix: string): (r: bool)
    ensures r <==> |suffix| <= |s| && s[..|s| - |suffix|] + suffix == s
  {
    |suffix| <= |s| && s[|s| - |suffix|..] == suffix
  }

  // ---------------------------------------------------------------------
  // Selecting the input files

  /** The names of the listing that end in ".txt", in listing order. */
  function TxtFiles(names: seq<string>): (r: seq<string>)
    ensures |r| <= |names|
    ensures forall f :: f in r <==> f in names && EndsWith(f, TxtSuffix)
  {
    if names == [] then []
    else (if EndsWith(names[0], TxtSuffix) then [names[0]] else []) + TxtFiles(names[1..])
  }

  /** Filtering distributes over concatenation, so the kept names stay in
      listing order. */
  lemma {:induction false} TxtFilesAppend(a: seq<string>, b: seq<string>)
    ensures TxtFiles(a + b) == TxtFiles(a) + TxtFiles(b)
  {
    if a == [] {
      AppendEmpty(b);
    } else {
      ConsAppend(a, b);
      TxtFilesAppend(a[1..], b);
    }
  }

  /** The suffix test is case-sensitive: a name ending in ".TXT" is not kept. */
  lemma UpperCaseSuffixIgnored(names: seq<string>, f: string)
    requires EndsWith(f, ".TXT")
    ensures !EndsWith(f, TxtSuffix)
    ensures f !in TxtFiles(names)
  {
    assert f[|f| - 1] == f[|f| - 4..][3];
  }

  // ---------------------------------------------------------------------
  // Stamping metadata

  /** Sets `source_file` to the filename and `doc_type` to the classifier's
      label; the text and every other key stay as they were. */
  function Stamp(d: Document, filename: string): (r: Document)
    ensures r.pageContent == d.pageContent
    ensures r.metadata.Keys == d.metadata.Keys + {SourceFileKey, DocTypeKey}
    ensures r.metadata[SourceFileKey] == filename
    ensures r.metadata[DocTypeKey] == Label(IdentifyDocType(filename))
    ensures forall k :: k in d.metadata && k != SourceFileKey && k != DocTypeKey ==>
      r.metadata[k] == d.metadata[k]
  {
    d.(metadata := d.metadata[SourceFileKey := filename][DocTypeKey := Label(IdentifyDocType(filename))])
  }

  /** Every document of a file, stamped with that file's name. */
  function StampAll(docs: seq<Document>, filename: string): (r: seq<Document>)
    ensures |r| == |docs|
    ensures forall i :: 0 <= i < |r| ==> r[i] == Stamp(docs[i], filename)
    ensures forall d :: d in r ==> SourceFileKey in d.metadata && d.metadata[SourceFileKey] == filename
  {
    seq(|docs|, i requires 0 <= i < |docs| => Stamp(docs[i], filename))
  }

  // ---------------------------------------------------------------------
  // Collecting the documents

  /** The documents one file adds: none when its load fails, otherwise one
      per loaded document, in order, with the same text and both keys set. */
  function Contribution(filename: string, load: string -> LoadOutcome): (r: seq<Document>)
    ensures |r| == (if load(filename).Loaded? then |load(filename).docs| else 0)
    ensures forall i :: 0 <= i < |r| ==>
      r[i].pageContent == load(filename).docs[i].pageContent &&
      r[i].metadata.Keys == load(filename).docs[i].metadata.Keys + {SourceFileKey, DocTypeKey} &&
      r[i].metadata[SourceFileKey] == filename &&
      r[i].metadata[DocTypeKey] == Label(IdentifyDocType(filename))
  {
    match load(filename)
    case LoadFailed => []
    case Loaded(docs) => StampAll(docs, filename)
  }

  /** The documents of `files`, processed in order; each names one of the
      files as its `source_file`. */
  function Collect(files: seq<string>, load: string -> LoadOutcome): (r: seq<Document>)
    ensures forall d :: d in r ==> SourceFileKey in d.metadata && d.metadata[SourceFileKey] in files
  {
    if files == [] then []
    else Collect(files[..|files| - 1], load) + Contribution(files[|files| - 1], load)
  }

  /** What `load_documents` returns or raises, for a listing and a loader. */
  function LoadDocumentsSpec(listing: Option<seq<string>>, load: string -> LoadOutcome)
    : (r: Result<seq<Document>, LoadError>)
    ensures r == Failure(DirectoryNotFound) <==> listing.None?
    ensures r == Failure(NoTxtFiles) <==>
      listing.Some? && forall f :: f in listing.value ==> !EndsWith(f, TxtSuffix)
    ensures r.Success? ==> listing.Some? && r.value == Collect(TxtFiles(listing.value), load)
  {
    match listing
    case None => Failure(DirectoryNotFound)
    case Some(names) =>
      var txtFiles := TxtFiles(names);
      if txtFiles == [] then Failure(NoTxtFiles)
      else
        assert txtFiles[0] in txtFiles;
        Success(Collect(txtFiles, load))
  }

  /** The inner loop of the loader: sets `source_file` and `doc_type` on
      every document one file's load returned. */
  method StampDocuments(docs: seq<Document>, filename: string) returns (stamped: seq<Document>)
    ensures |stamped| == |docs|
    ensures forall k :: 0 <= k < |docs| ==> stamped[k] == Stamp(docs[k], filename)
    ensures stamped == StampAll(docs, filename)
  {
    stamped := docs;
    for j := 0 to |docs|
      invariant |stamped| == |docs|
      invariant forall k :: 0 <= k < j ==> stamped[k] == Stamp(docs[k], filename)
      invariant forall k :: j <= k < |docs| ==> stamped[k] == docs[k]
    {
      var doc := stamped[j];
      doc := doc.(metadata := doc.metadata[SourceFileKey := filename]);
      doc := doc.(metadata := doc.metadata[DocTypeKey := Label(IdentifyDocType(filename))]);
      stamped := stamped[j := doc];
    }
  }

  /** The loader: fails on a missing directory or an empty selection,
      otherwise loads the kept files in order, skipping those whose load
      fails, and extends the result with each file's stamped documents. */
  method LoadDocuments(listing: Option<seq<string>>, load: string -> LoadOutcome)
    returns (r: Result<seq<Document>, LoadError>)
    ensures r == LoadDocumentsSpec(listing, load)
  {
    if listing.None? {
      return Failure(DirectoryNotFound);
    }
    var txtFiles := TxtFiles(listing.value);
    if txtFiles == [] {
      return Failure(NoTxtFiles);
    }
    var documents: seq<Document> := [];
    for i := 0 to |txtFiles|
      invariant documents == Collect(txtFiles[..i], load)
    {
      var filename := txtFiles[i];
      var outcome := load(filename);
      if outcome.Loaded? {
        var docs := StampDocuments(outcome.docs, filename);
        documents := documents + docs;
      }
      PrefixExtend(txtFiles, i);
      CollectSnoc(txtFiles[..i], filename, load);
    }
    assert txtFiles[..|txtFiles|] == txtFiles;
    return Success(documents);
  }

  // ---------------------------------------------------------------------
  // Properties of the loader

  /** Appending one name appends that file's contribution. */
  lemma CollectSnoc(files: seq<string>, f: string, load: string -> LoadOutcome)
    ensures Collect(files + [f], load) == Collect(files, load) + Contribution(f, load)
  {
    Snoc(files, f);
  }

  /** Collecting distributes over concatenation of file lists. */
  lemma {:induction false} CollectAppend(a: seq<string>, b: seq<string>, load: string -> LoadOutcome)
    ensures Collect(a + b, load) == Collect(a, load) + Collect(b, load)
    decreases |b|
  {
    if b == [] {
      AppendEmpty(a);
    } else {
      var b', last := b[..|b| - 1], b[|b| - 1];
      LastSplit(b);
      calc {
        Collect(a + b, load);
        { SnocAssoc(a, b', last); }
        Collect((a + b') + [last], load);
        { CollectSnoc(a + b', last, load); }
        Collect(a + b', load) + Contribution(last, load);
        { CollectAppend(a, b', load); }
        Collect(a, load) + Collect(b', load) + Contribution(last, load);
        { Assoc(Collect(a, load), Collect(b', load), Contribution(last, load)); }
        Collect(a, load) + (Collect(b', load) + Contribution(last, load));
        { CollectSnoc(b', last, load); }
        Collect(a, load) + Collect(b, load);
      }
    }
  }

  /** One file on its own contributes exactly its stamped documents. */
  lemma CollectSingle(f: string, load: string -> LoadOutcome)
    ensures Collect([f], load) == Contribution(f, load)
  {
    Snoc([], f);
  }

  /** A file whose load fails adds nothing and does not stop the files after
      it from being loaded. */
  lemma FailedFileSkipped(a: seq<string>, f: string, b: seq<string>, load: string -> LoadOutcome)
    requires load(f) == LoadFailed
    ensures Collect(a + [f] + b, load) == Collect(a, load) + Collect(b, load)
  {
    CollectAppend(a + [f], b, load);
    CollectAppend(a, [f], load);
    CollectSingle(f, load);
  }

  /** The number of documents each file's load returns, summed over `files`. */
  function DocCount(files: seq<string>, load: string -> LoadOutcome): nat {
    if files == [] then 0
    else
      (match load(files[0]) case LoadFailed => 0 case Loaded(docs) => |docs|)
      + DocCount(files[1..], load)
  }

  /** The result has as many documents as the successful loads returned. */
  lemma {:induction false} CollectLength(files: seq<string>, load: string -> LoadOutcome)
    ensures |Collect(files, load)| == DocCount(files, load)
  {
    if files != [] {
      ConsSplit(files);
      CollectAppend([files[0]], files[1..], load);
      CollectSingle(files[0], load);
      CollectLength(files[1..], load);
    }
  }

  /** The number of files in `files` whose load fails. */
  function FailureCount(files: seq<string>, load: string -> LoadOutcome): nat {
    if files == [] then 0
    else (if load(files[0]).LoadFailed? then 1 else 0) + FailureCount(files[1..], load)
  }

  /** When every readable file yields one document, each unreadable file
      costs exactly one document: five files with one unreadable give four. */
  lemma {:induction false} OneDocumentPerFile(files: seq<string>, load: string -> LoadOutcome)
    requires forall f :: f in files ==> load(f).LoadFailed? || |load(f).docs| == 1
    ensures FailureCount(files, load) <= |files|
    ensures |Collect(files, load)| == |files| - FailureCount(files, load)
  {
    CollectLength(files, load);
    CountsPerFile(files, load);
  }

  lemma {:induction false} CountsPerFile(files: seq<string>, load: string -> LoadOutcome)
    requires forall f :: f in files ==> load(f).LoadFailed? || |load(f).docs| == 1
    ensures DocCount(files, load) + FailureCount(files, load) == |files|
  {
    if files != [] {
      assert forall f :: f in files[1..] ==> f in files;
      CountsPerFile(files[1..], load);
    }
  }

  /** `d` is document of `files[i]`'s load, stamped with that name. */
  ghost predicate FromFile(files: seq<string>, load: string -> LoadOutcome, i: int, d: Document) {
    0 <= i < |files| && load(files[i]).Loaded? &&
    exists d0 :: d0 in load(files[i]).docs && d == Stamp(d0, files[i])
  }

  /** Every returned document is a document of some kept file, stamped with
      that file's name. */
  lemma {:induction false} CollectProvenance(files: seq<string>, load: string -> LoadOutcome, d: Document)
    requires d in Collect(files, load)
    ensures exists i :: FromFile(files, load, i, d)
    decreases |files|
  {
    var n := |files|;
    var init := files[..n - 1];
    assert Collect(files, load) == Collect(init, load) + Contribution(files[n - 1], load);
    if d in Collect(init, load) {
      CollectProvenance(init, load, d);
      var i :| FromFile(init, load, i, d);
      assert init[i] == files[i];
      assert FromFile(files, load, i, d);
    } else {
      var docs := load(files[n - 1]).docs;
      var j :| 0 <= j < |docs| && d == StampAll(docs, files[n - 1])[j];
      assert docs[j] in docs;
      assert FromFile(files, load, n - 1, d);
    }
  }

  /** Conversely, every document of every successfully loaded file appears in
      the result, stamped with that file's name. */
  lemma CollectComplete(files: seq<string>, load: string -> LoadOutcome, i: nat, d0: Document)
    requires i < |files| && load(files[i]).Loaded? && d0 in load(files[i]).docs
    ensures Stamp(d0, files[i]) in Collect(files, load)
  {
    var pre, f, post := files[..i], files[i], files[i + 1..];
    SplitAt(files, i);
    CollectAppend(pre + [f], post, load);
    CollectSnoc(pre, f, load);
    var docs := load(f).docs;
    var j :| 0 <= j < |docs| && docs[j] == d0;
    assert StampAll(docs, f)[j] == Stamp(d0, f);
    InMiddle(Collect(pre, load), Contribution(f, load), Collect(post, load), Stamp(d0, f));
  }


  /** Every returned document names a kept file as its `source_file`, and its
      `doc_type` is the classifier's label for that name. */
  lemma StampedMetadata(listing: Option<seq<string>>, load: string -> LoadOutcome, d: Document)
    requires LoadDocumentsSpec(listing, load).Success?
    requires d in LoadDocumentsSpec(listing, load).value
    ensures SourceFileKey in d.metadata && DocTypeKey in d.metadata
    ensures d.metadata[SourceFileKey] in listing.value
    ensures EndsWith(d.metadata[SourceFileKey], TxtSuffix)
    ensures d.metadata[DocTypeKey] == Label(IdentifyDocType(d.metadata[SourceFileKey]))
  {
    var files := TxtFiles(listing.value);
    CollectProvenance(files, load, d);
    var i :| FromFile(files, load, i, d);
    var d0 :| d0 in load(files[i]).docs && d == Stamp(d0, files[i]);
    assert files[i] in files;
  }
}
