/**
 * The multiple-file importer (lib/utils/import/multiple/index.ts). It routes
 * the chosen files by extension into three per-format buckets, starts one
 * conversion engine per non-empty bucket, and folds the engines' `status`
 * events into a single status stream: every event but `complete` is passed
 * on, and the `complete` counts are added up into one final `complete`.
 */
module MultipleImport {
  import opened Wrappers
  import opened Files
  import opened Sequences

  /** The three conversion engines: text files, Simplenote JSON exports, Evernote exports. */
  datatype Category = Text | Simplenote | Evernote

  /** A `('status', type, arg)` event, as an engine emits it and as the importer emits it. */
  datatype Status = Complete(count: int) | Error(message: string) | Progress(payload: string)

  const NoFilesMessage: string := "No files to import."

  // ---------------------------------------------------------------------------
  // Routing files to buckets
  // ---------------------------------------------------------------------------

  /** The bucket an extension selects, or None: any other extension is dropped. */
  function BucketFor(ext: string): Option<Category>
  {
    if ext == "md" || ext == "txt" then Some(Text)
    else if ext == "json" then Some(Simplenote)
    else if ext == "enex" then Some(Evernote)
    else None
  }

  /** The bucket a file name goes to. */
  function Route(name: string): Option<Category>
  {
    BucketFor(Extension(name))
  }

  /** A text file goes to the text engine. */
  lemma RouteTextFile()
    ensures Route("note1.txt") == Some(Text)
  {
    DottedNameExtension();
  }

  /** Extensions match case-sensitively: an upper-case JSON export is dropped. */
  lemma RouteIsCaseSensitive()
    ensures Route("memo.JSON") == None
  {
    UpperCaseExtension();
  }

  /** A bare name is its own extension, so a file called "json" is a Simplenote export. */
  lemma RouteBareName()
    ensures Route("json") == Some(Simplenote)
  {
    BareNameExtension();
  }

  /** A name ending in a dot is its own extension, and no bucket takes it. */
  lemma RouteTrailingDot()
    ensures Route("a.") == None
  {
    TrailingDotExtension();
  }

  /** The files routed to `c`, in input order, each as often as it occurs. */
  function Routed(files: seq<File>, c: Category): seq<File>
  {
    Keep(files, (f: File) => Route(f.name) == Some(c))
  }

  /** The files that no bucket takes. */
  function Unrouted(files: seq<File>): seq<File>
  {
    Keep(files, (f: File) => Route(f.name) == None)
  }

  /**
   * No deduplication and nothing misplaced: a bucket holds every occurrence
   * of every file routed to it (all JSON files go to the Simplenote engine)
   * and no other file.
   */
  lemma RoutingKeepsDuplicates(files: seq<File>, f: File, c: Category)
    ensures multiset(Routed(files, c))[f] == if Route(f.name) == Some(c) then multiset(files)[f] else 0
  {
    KeepCount(files, (f: File) => Route(f.name) == Some(c), f);
  }

  /** Each bucket receives its files in input order. */
  lemma RoutingKeepsOrder(files: seq<File>, c: Category)
    ensures IsSubsequence(Routed(files, c), files)
  {
    KeepIsSubsequence(files, (f: File) => Route(f.name) == Some(c));
  }

  /** Every file ends up in exactly one of the three buckets or is dropped. */
  lemma RoutingPartition(files: seq<File>)
    ensures multiset(files)
         == multiset(Routed(files, Text)) + multiset(Routed(files, Simplenote))
          + multiset(Routed(files, Evernote)) + multiset(Unrouted(files))
  {
    forall f
      ensures multiset(files)[f]
           == multiset(Routed(files, Text))[f] + multiset(Routed(files, Simplenote))[f]
            + multiset(Routed(files, Evernote))[f] + multiset(Unrouted(files))[f]
    {
      RoutingKeepsDuplicates(files, f, Text);
      RoutingKeepsDuplicates(files, f, Simplenote);
      RoutingKeepsDuplicates(files, f, Evernote);
      KeepCount(files, (f: File) => Route(f.name) == None, f);
    }
  }

  // ---------------------------------------------------------------------------
  // Buckets and dispatch
  // ---------------------------------------------------------------------------

  /** The contents of the three bucket arrays. */
  datatype Buckets = Buckets(text: seq<File>, simplenote: seq<File>, evernote: seq<File>)
  {
    function Of(c: Category): seq<File>
    {
      match c
      case Text => text
      case Simplenote => simplenote
      case Evernote => evernote
    }
  }

  const NoBuckets: Buckets := Buckets([], [], [])

  /** The buckets after one classification pass over `files` appended to them. */
  function Classify(b: Buckets, files: seq<File>): Buckets
  {
    Buckets(b.text + Routed(files, Text),
            b.simplenote + Routed(files, Simplenote),
            b.evernote + Routed(files, Evernote))
  }

  /** The buckets are never cleared: two passes leave what one pass over both lists leaves. */
  lemma ClassifyTwice(b: Buckets, first: seq<File>, second: seq<File>)
    ensures Classify(Classify(b, first), second) == Classify(b, first + second)
  {
    forall c: Category
      ensures Routed(first + second, c) == Routed(first, c) + Routed(second, c)
    {
      KeepAppend(first, second, (f: File) => Route(f.name) == Some(c));
    }
    SeqAssoc(b.text, Routed(first, Text), Routed(second, Text));
    SeqAssoc(b.simplenote, Routed(first, Simplenote), Routed(second, Simplenote));
    SeqAssoc(b.evernote, Routed(first, Evernote), Routed(second, Evernote));
  }

  /** The buckets with `f` appended to the one `bucket` names. */
  function AddTo(b: Buckets, f: File, bucket: Option<Category>): Buckets
  {
    match bucket
    case Some(Text) => b.(text := b.text + [f])
    case Some(Simplenote) => b.(simplenote := b.simplenote + [f])
    case Some(Evernote) => b.(evernote := b.evernote + [f])
    case None => b
  }

  lemma RoutedOne(f: File, c: Category)
    ensures Routed([f], c) == if Route(f.name) == Some(c) then [f] else []
  {
    KeepOne(f, (f: File) => Route(f.name) == Some(c));
  }

  /** Classifying one file appends it to the bucket its extension routes it to. */
  lemma ClassifyOne(b: Buckets, f: File)
    ensures Classify(b, [f]) == AddTo(b, f, Route(f.name))
  {
    var classified, added := Classify(b, [f]), AddTo(b, f, Route(f.name));
    ClassifyOneOf(b, f, Text);
    ClassifyOneOf(b, f, Simplenote);
    ClassifyOneOf(b, f, Evernote);
    assert classified.text == added.text;
    assert classified.simplenote == added.simplenote;
    assert classified.evernote == added.evernote;
  }

  /** Bucket by bucket: classifying one file adds it only to the bucket its extension names. */
  lemma ClassifyOneOf(b: Buckets, f: File, c: Category)
    ensures Classify(b, [f]).Of(c) == AddTo(b, f, Route(f.name)).Of(c)
  {
    RoutedOne(f, c);
    AddToOf(b, f, Route(f.name), c);
    assert Classify(b, [f]).Of(c) == b.Of(c) + Routed([f], c);
  }

  /** Appending to the bucket `bucket` names grows that bucket by `f` and leaves the others alone. */
  lemma AddToOf(b: Buckets, f: File, bucket: Option<Category>, c: Category)
    ensures AddTo(b, f, bucket).Of(c) == b.Of(c) + (if bucket == Some(c) then [f] else [])
  {
    assert b.Of(c) + [] == b.Of(c);
  }

  /** Classifying one more file. */
  lemma ClassifyStep(b: Buckets, prefix: seq<File>, f: File)
    ensures Classify(b, prefix + [f]) == AddTo(Classify(b, prefix), f, Route(f.name))
  {
    ClassifyTwice(b, prefix, [f]);
    ClassifyOne(Classify(b, prefix), f);
  }

  /** `totalImporters`: one for each non-empty bucket. */
  function ImporterCount(b: Buckets): (n: nat)
    ensures n <= 3
    ensures n == 0 <==> b.text == [] && b.simplenote == [] && b.evernote == []
  {
    (if |b.text| > 0 then 1 else 0)
    + (if |b.simplenote| > 0 then 1 else 0)
    + (if |b.evernote| > 0 then 1 else 0)
  }

  /** An engine that was started, with the bucket it was handed. */
  datatype Engine = Engine(category: Category, batch: seq<File>)

  /** The engines one call starts, in the order it starts them. */
  function Dispatch(b: Buckets): (r: seq<Engine>)
    ensures |r| == ImporterCount(b) <= 3
    ensures forall c :: Engine(c, b.Of(c)) in r <==> b.Of(c) != []
    ensures forall e :: e in r ==> e.batch == b.Of(e.category) && e.batch != []
    ensures forall i, j :: 0 <= i < j < |r| ==> r[i].category != r[j].category
  {
    (if |b.text| > 0 then [Engine(Text, b.text)] else [])
    + (if |b.simplenote| > 0 then [Engine(Simplenote, b.simplenote)] else [])
    + (if |b.evernote| > 0 then [Engine(Evernote, b.evernote)] else [])
  }

  /**
   * Because the buckets persist, a later call hands each engine the files of
   * the earlier call again, followed by its own.
   */
  lemma LaterCallRedispatches(first: seq<File>, second: seq<File>, c: Category)
    ensures Classify(Classify(NoBuckets, first), second).Of(c) == Routed(first, c) + Routed(second, c)
    ensures var batch := Routed(first, c) + Routed(second, c);
      Engine(c, batch) in Dispatch(Classify(Classify(NoBuckets, first), second)) <==> batch != []
  {
    assert [] + Routed(first, c) == Routed(first, c);
  }

  /**
   * An empty array is truthy: it starts again every engine whose bucket an
   * earlier call filled, and on a fresh importer it starts none.
   */
  lemma EmptyCallRestartsOldBuckets(b: Buckets)
    ensures Dispatch(Classify(b, [])) == Dispatch(b)
    ensures Dispatch(Classify(NoBuckets, [])) == []
  {
    assert Classify(b, []) == b;
    assert Classify(NoBuckets, []) == NoBuckets;
  }

  // ---------------------------------------------------------------------------
  // Aggregating status events
  // ---------------------------------------------------------------------------

  /** The counters that the status callbacks of one call share. */
  datatype Tally = Tally(totalImporters: nat, totalComplete: nat, importedNoteCount: int)

  /** What one status callback does with one event: the new counters and what it emits. */
  function Step(t: Tally, event: Status): (Tally, seq<Status>)
  {
    match event
    case Complete(n) =>
      var next := t.(totalComplete := t.totalComplete + 1, importedNoteCount := t.importedNoteCount + n);
      (next, if next.totalComplete == next.totalImporters then [Complete(next.importedNoteCount)] else [])
    case _ => (t, [event])
  }

  /** The events fed one at a time, in arrival order, from any engine. */
  function Feed(t: Tally, events: seq<Status>): (Tally, seq<Status>)
    decreases |events|
  {
    if events == [] then (t, [])
    else
      var first := Step(t, events[0]);
      var rest := Feed(first.0, events[1..]);
      (rest.0, first.1 + rest.1)
  }

  /** Feeding one more event is one more `Step` after the events before it. */
  lemma {:induction false} FeedSnoc(t: Tally, xs: seq<Status>, e: Status)
    decreases |xs|
    ensures Feed(t, xs + [e]).0 == Step(Feed(t, xs).0, e).0
    ensures Feed(t, xs + [e]).1 == Feed(t, xs).1 + Step(Feed(t, xs).0, e).1
  {
    if xs == [] {
      assert xs + [e] == [e];
      assert [e][1..] == [];
    } else {
      var first := Step(t, xs[0]);
      assert (xs + [e])[0] == xs[0];
      assert (xs + [e])[1..] == xs[1..] + [e];
      FeedSnoc(first.0, xs[1..], e);
      var later := Feed(first.0, xs[1..]);
      var last := Step(later.0, e);
      assert first.1 + (later.1 + last.1) == (first.1 + later.1) + last.1;
    }
  }

  /** The counts carried by the `complete` events, in order. */
  function CompleteCounts(events: seq<Status>): seq<int>
  {
    if events == [] then []
    else (if events[0].Complete? then [events[0].count] else []) + CompleteCounts(events[1..])
  }

  /** The events other than `complete`, in order. */
  function Forwarded(events: seq<Status>): seq<Status>
  {
    if events == [] then []
    else (if events[0].Complete? then [] else [events[0]]) + Forwarded(events[1..])
  }

  function Sum(xs: seq<int>): int
  {
    if xs == [] then 0 else xs[0] + Sum(xs[1..])
  }

  lemma {:induction false} CompleteCountsAppend(a: seq<Status>, b: seq<Status>)
    ensures CompleteCounts(a + b) == CompleteCounts(a) + CompleteCounts(b)
  {
    if a == [] {
      assert a + b == b;
    } else {
      assert (a + b)[0] == a[0];
      assert (a + b)[1..] == a[1..] + b;
      CompleteCountsAppend(a[1..], b);
      var head := if a[0].Complete? then [a[0].count] else [];
      assert head + (CompleteCounts(a[1..]) + CompleteCounts(b))
          == (head + CompleteCounts(a[1..])) + CompleteCounts(b);
    }
  }

  lemma {:induction false} ForwardedAppend(a: seq<Status>, b: seq<Status>)
    ensures Forwarded(a + b) == Forwarded(a) + Forwarded(b)
  {
    if a == [] {
      assert a + b == b;
    } else {
      assert (a + b)[0] == a[0];
      assert (a + b)[1..] == a[1..] + b;
      ForwardedAppend(a[1..], b);
      var head := if a[0].Complete? then [] else [a[0]];
      assert head + (Forwarded(a[1..]) + Forwarded(b)) == (head + Forwarded(a[1..])) + Forwarded(b);
    }
  }

  /** The counters grow by the number and by the sum of the completions fed. */
  lemma {:induction false} FeedCounters(t: Tally, events: seq<Status>)
    decreases |events|
    ensures Feed(t, events).0
      == Tally(t.totalImporters, t.totalComplete + |CompleteCounts(events)|,
               t.importedNoteCount + Sum(CompleteCounts(events)))
  {
    if events != [] {
      var e := events[0];
      FeedCounters(Step(t, e).0, events[1..]);
      var rest := CompleteCounts(events[1..]);
      if e.Complete? {
        assert CompleteCounts(events) == [e.count] + rest;
        assert ([e.count] + rest)[1..] == rest;
      } else {
        assert CompleteCounts(events) == [] + rest;
        assert [] + rest == rest;
      }
    }
  }

  /** Every event other than `complete` is passed on unchanged and in arrival order. */
  lemma {:induction false} FeedForwards(t: Tally, events: seq<Status>)
    decreases |events|
    ensures Forwarded(Feed(t, events).1) == Forwarded(events)
  {
    if events != [] {
      var e := events[0];
      var first := Step(t, e);
      var later := Feed(first.0, events[1..]);
      assert Feed(t, events) == (later.0, first.1 + later.1);
      FeedForwards(first.0, events[1..]);
      ForwardedAppend(first.1, later.1);
      if e.Complete? {
        assert Forwarded(events) == [] + Forwarded(events[1..]);
        assert [] + Forwarded(events[1..]) == Forwarded(events[1..]);
        assert first.1 != [] ==> Forwarded(first.1) == [] + [];
      } else {
        assert first == (t, [e]);
        assert Forwarded([e]) == [e] + [];
      }
    }
  }

  /**
   * The arithmetic of one `complete` event: it emits the aggregate when it is
   * the last one missing, and otherwise leaves the aggregate to the events
   * after it.
   */
  lemma AggregateOnComplete(remaining: int, s: int, n: int, rest: seq<int>, later: seq<int>)
    requires later == if 0 < remaining - 1 <= |rest| then [s + n + Sum(rest[..remaining - 1])] else []
    ensures (if remaining == 1 then [s + n] else []) + later
         == if 0 < remaining <= |[n] + rest| then [s + Sum(([n] + rest)[..remaining])] else []
  {
    if remaining == 1 {
      assert ([n] + rest)[..1] == [n];
      assert [n][1..] == [];
      assert Sum([n]) == n + Sum([]);
      assert [s + n] + [] == [s + n];
    } else if 1 < remaining <= |rest| + 1 {
      assert ([n] + rest)[..remaining] == [n] + rest[..remaining - 1];
      assert ([n] + rest[..remaining - 1])[1..] == rest[..remaining - 1];
      assert [] + later == later;
    } else {
      assert [] + later == later;
    }
  }

  /**
   * From counters `t`, feeding `events` emits one aggregate `complete` exactly
   * when the completions reach `totalImporters`, carrying the notes counted
   * so far plus the counts of the completions that got it there.
   */
  ghost predicate AggregatesFrom(t: Tally, events: seq<Status>)
  {
    var remaining := t.totalImporters - t.totalComplete;
    CompleteCounts(Feed(t, events).1)
    == if 0 < remaining <= |CompleteCounts(events)|
       then [t.importedNoteCount + Sum(CompleteCounts(events)[..remaining])]
       else []
  }

  /** From any counters, the aggregate `complete` is emitted as `AggregatesFrom` says. */
  lemma {:induction false} FeedAggregates(t: Tally, events: seq<Status>)
    decreases |events|
    ensures var remaining := t.totalImporters - t.totalComplete;
      CompleteCounts(Feed(t, events).1)
      == if 0 < remaining <= |CompleteCounts(events)|
         then [t.importedNoteCount + Sum(CompleteCounts(events)[..remaining])]
         else []
  {
    if events != [] {
      FeedAggregates(Step(t, events[0]).0, events[1..]);
      if events[0].Complete? {
        FeedAggregatesComplete(t, events);
      } else {
        FeedAggregatesOther(t, events);
      }
    }
  }

  /** The first event is a `complete`: it counts towards the aggregate. */
  lemma FeedAggregatesComplete(t: Tally, events: seq<Status>)
    requires events != [] && events[0].Complete?
    requires AggregatesFrom(Step(t, events[0]).0, events[1..])
    ensures AggregatesFrom(t, events)
  {
    var e := events[0];
    var first := Step(t, e);
    var later := Feed(first.0, events[1..]);
    assert Feed(t, events) == (later.0, first.1 + later.1);
    CompleteCountsAppend(first.1, later.1);
    var rest := CompleteCounts(events[1..]);
    var n, s := e.count, t.importedNoteCount;
    var remaining := t.totalImporters - t.totalComplete;
    assert CompleteCounts(events) == [n] + rest;
    assert first.0.totalImporters - first.0.totalComplete == remaining - 1;
    assert CompleteCounts(first.1) == if remaining == 1 then [s + n] else [] by {
      assert CompleteCounts([Complete(s + n)]) == [s + n] + [];
    }
    AggregateOnComplete(remaining, s, n, rest, CompleteCounts(later.1));
  }

  /** The first event is not a `complete`: it leaves the aggregate to the events after it. */
  lemma FeedAggregatesOther(t: Tally, events: seq<Status>)
    requires events != [] && !events[0].Complete?
    requires AggregatesFrom(Step(t, events[0]).0, events[1..])
    ensures AggregatesFrom(t, events)
  {
    var e := events[0];
    var later := Feed(t, events[1..]);
    assert Step(t, e) == (t, [e]);
    assert Feed(t, events) == (later.0, [e] + later.1);
    CompleteCountsAppend([e], later.1);
    assert CompleteCounts([e]) == [] + [];
    assert CompleteCounts(events) == [] + CompleteCounts(events[1..]);
    assert [] + CompleteCounts(events[1..]) == CompleteCounts(events[1..]);
    assert [] + CompleteCounts(later.1) == CompleteCounts(later.1);
  }

  /** A fresh call's counters: no completions and no notes yet. */
  function Fresh(totalImporters: nat): Tally
  {
    Tally(totalImporters, 0, 0)
  }

  /**
   * With `n` engines started, the aggregate `complete` is emitted at most
   * once; it is emitted exactly when at least `n` completions arrived, and
   * then carries the sum of the first `n` counts.
   */
  lemma AggregateCompleteOnce(n: nat, events: seq<Status>)
    requires n > 0
    ensures |CompleteCounts(Feed(Fresh(n), events).1)| <= 1
    ensures CompleteCounts(Feed(Fresh(n), events).1) != [] <==> |CompleteCounts(events)| >= n
    ensures |CompleteCounts(events)| >= n ==>
      CompleteCounts(Feed(Fresh(n), events).1) == [Sum(CompleteCounts(events)[..n])]
  {
    FeedAggregates(Fresh(n), events);
  }

  /**
   * Errors do not count as completions: while no engine has completed, the
   * output is exactly the input, and no aggregate `complete` appears.
   */
  lemma {:induction false} WithoutCompletionsAllIsForwarded(t: Tally, events: seq<Status>)
    requires forall i :: 0 <= i < |events| ==> !events[i].Complete?
    ensures Feed(t, events) == (t, events)
  {
    if events != [] {
      WithoutCompletionsAllIsForwarded(t, events[1..]);
      assert [events[0]] + events[1..] == events;
    }
  }

  /** Two engines, their completions interleaved with other events. */
  lemma TwoEnginesScenario(a: int, b: int, p: string, m: string)
    ensures Feed(Fresh(2), [Progress(p), Complete(a), Error(m), Complete(b)]).1
         == [Progress(p), Error(m), Complete(a + b)]
  {
    var done := Tally(2, 2, a + b);
    assert [Complete(b)][1..] == [];
    assert Feed(done, []) == (done, []);
    assert [Complete(a + b)] + [] == [Complete(a + b)];
    assert Feed(Tally(2, 1, a), [Complete(b)]) == (done, [Complete(a + b)]);
    assert [Error(m), Complete(b)][1..] == [Complete(b)];
    assert [Error(m)] + [Complete(a + b)] == [Error(m), Complete(a + b)];
    assert Feed(Tally(2, 1, a), [Error(m), Complete(b)]) == (done, [Error(m), Complete(a + b)]);
    assert [Complete(a), Error(m), Complete(b)][1..] == [Error(m), Complete(b)];
    assert Step(Fresh(2), Complete(a)) == (Tally(2, 1, a), []);
    assert [] + [Error(m), Complete(a + b)] == [Error(m), Complete(a + b)];
    assert Feed(Fresh(2), [Complete(a), Error(m), Complete(b)]) == (done, [Error(m), Complete(a + b)]);
    assert [Progress(p), Complete(a), Error(m), Complete(b)][1..] == [Complete(a), Error(m), Complete(b)];
    assert [Progress(p)] + [Error(m), Complete(a + b)] == [Progress(p), Error(m), Complete(a + b)];
  }

  // ---------------------------------------------------------------------------
  // The importer object
  // ---------------------------------------------------------------------------

  class MultipleImporter {
    var textFiles: seq<File>
    var simplenoteFiles: seq<File>
    var evernoteFiles: seq<File>
    /** Every status event this importer has emitted, oldest first. */
    var emitted: seq<Status>
    /** Every engine this importer has started, oldest first. */
    var started: seq<Engine>

    function Contents(): Buckets
      reads this
    {
      Buckets(textFiles, simplenoteFiles, evernoteFiles)
    }

    constructor ()
      ensures Contents() == NoBuckets && emitted == [] && started == []
    {
      textFiles, simplenoteFiles, evernoteFiles := [], [], [];
      emitted, started := [], [];
    }

    /**
     * `importNotes(filesArray)`, with None for a falsy argument. Returns the
     * state shared by the status callbacks of this call, or null when the
     * call stops at the error.
     */
    method ImportNotes(filesArray: Option<seq<File>>) returns (run: ImportRun?)
      modifies this
      ensures filesArray.None? ==>
        && run == null
        && Contents() == old(Contents())
        && emitted == old(emitted) + [Error(NoFilesMessage)]
        && started == old(started)
      ensures filesArray.Some? ==>
        && Contents() == Classify(old(Contents()), filesArray.value)
        && emitted == old(emitted)
        && run != null && fresh(run) && run.importer == this
        && run.engines == Dispatch(Contents())
        && started == old(started) + run.engines
        && run.Counters() == Fresh(ImporterCount(Contents()))
    {
      if filesArray.None? {
        emitted := emitted + [Error(NoFilesMessage)];
        return null;
      }
      SortIntoBuckets(filesArray.value);
      run := StartImporters();
    }

    /** The classification loop: each file is appended to the bucket its extension names. */
    method SortIntoBuckets(files: seq<File>)
      modifies this
      ensures Contents() == Classify(old(Contents()), files)
      ensures emitted == old(emitted) && started == old(started)
    {
      ghost var initial := Contents();
      for i := 0 to |files|
        invariant Contents() == Classify(initial, files[..i])
        invariant emitted == old(emitted) && started == old(started)
      {
        var file := files[i];
        var fileExtension := Extension(file.name);
        var bucket := BucketFor(fileExtension);
        PushTo(file, bucket);
        assert bucket == Route(file.name);
        PrefixSnoc(files, i);
        ClassifyStep(initial, files[..i], file);
      }
      assert files[..|files|] == files;
    }

    /** Appends `file` to the bucket array `bucket` names, if any. */
    method PushTo(file: File, bucket: Option<Category>)
      modifies this
      ensures Contents() == AddTo(old(Contents()), file, bucket)
      ensures emitted == old(emitted) && started == old(started)
    {
      match bucket {
        case Some(Text) => textFiles := textFiles + [file];
        case Some(Simplenote) => simplenoteFiles := simplenoteFiles + [file];
        case Some(Evernote) => evernoteFiles := evernoteFiles + [file];
        case None =>
      }
    }

    /**
     * Counts the non-empty buckets, then subscribes to and starts one engine
     * per non-empty bucket, handing it the bucket itself.
     */
    method StartImporters() returns (run: ImportRun)
      modifies this
      ensures Contents() == old(Contents()) && emitted == old(emitted)
      ensures fresh(run) && run.importer == this
      ensures run.engines == Dispatch(Contents())
      ensures started == old(started) + run.engines
      ensures run.Counters() == Fresh(ImporterCount(Contents()))
    {
      var totalImporters := 0;
      if |textFiles| > 0 {
        totalImporters := totalImporters + 1;
      }
      if |simplenoteFiles| > 0 {
        totalImporters := totalImporters + 1;
      }
      if |evernoteFiles| > 0 {
        totalImporters := totalImporters + 1;
      }
      assert totalImporters == ImporterCount(Contents());
      run := new ImportRun(this, totalImporters);

      ghost var before := started;
      if |textFiles| > 0 {
        run.engines := run.engines + [Engine(Text, textFiles)];
        started := started + [Engine(Text, textFiles)];
      }
      ghost var first := run.engines;
      assert started == before + first;
      if |simplenoteFiles| > 0 {
        run.engines := run.engines + [Engine(Simplenote, simplenoteFiles)];
        started := started + [Engine(Simplenote, simplenoteFiles)];
      }
      ghost var second := run.engines;
      assert started == before + second;
      if |evernoteFiles| > 0 {
        run.engines := run.engines + [Engine(Evernote, evernoteFiles)];
        started := started + [Engine(Evernote, evernoteFiles)];
      }
      assert started == before + run.engines;
      assert run.engines == Dispatch(Contents());
    }
  }

  /** The closure state of one `importNotes` call, shared by its status callbacks. */
  class ImportRun {
    const importer: MultipleImporter
    const totalImporters: nat
    /** The engines whose `status` events this call subscribed to. */
    var engines: seq<Engine>
    var totalComplete: nat
    var importedNoteCount: int

    function Counters(): Tally
      reads this
    {
      Tally(totalImporters, totalComplete, importedNoteCount)
    }

    constructor (importer: MultipleImporter, totalImporters: nat)
      ensures this.importer == importer && engines == []
      ensures Counters() == Fresh(totalImporters)
    {
      this.importer := importer;
      this.totalImporters := totalImporters;
      engines := [];
      totalComplete, importedNoteCount := 0, 0;
    }

    /** The status callback of engine `source` receiving one event. */
    method HandleStatus(source: Engine, event: Status)
      requires source in engines
      modifies this, importer`emitted
      ensures Counters() == Step(old(Counters()), event).0
      ensures importer.emitted == old(importer.emitted) + Step(old(Counters()), event).1
      ensures engines == old(engines)
    {
      if event.Complete? {
        totalComplete := totalComplete + 1;
        importedNoteCount := importedNoteCount + event.count;
        if totalImporters == totalComplete {
          importer.emitted := importer.emitted + [Complete(importedNoteCount)];
        }
      } else {
        importer.emitted := importer.emitted + [event];
      }
    }

    /**
     * The callbacks invoked one after the other: `events[i]` arrives from
     * `sources[i]`. Whatever the interleaving of the engines, the counters and
     * the importer's output are those of the fold `Feed` over the events.
     */
    method Deliver(sources: seq<Engine>, events: seq<Status>)
      requires |sources| == |events|
      requires forall i :: 0 <= i < |sources| ==> sources[i] in engines
      modifies this, importer`emitted
      ensures Counters() == Feed(old(Counters()), events).0
      ensures importer.emitted == old(importer.emitted) + Feed(old(Counters()), events).1
      ensures engines == old(engines)
    {
      ghost var t0, e0 := Counters(), importer.emitted;
      for i := 0 to |events|
        invariant engines == old(engines)
        invariant Counters() == Feed(t0, events[..i]).0
        invariant importer.emitted == e0 + Feed(t0, events[..i]).1
      {
        FeedSnoc(t0, events[..i], events[i]);
        assert events[..i + 1] == events[..i] + [events[i]];
        HandleStatus(sources[i], events[i]);
      }
      assert events[..|events|] == events;
    }
  }
}
