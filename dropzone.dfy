/**
 * The import dialog's drop zone: it filters the files the browser accepted
 * (one Simplenote export and one Evernote export at most), reports why a
 * drop was rejected, and chooses the text it shows.
 */
module ImporterDropzone {
  import opened Wrappers
  import opened Files
  import opened Sequences

  const ChooseSingleFile := "Choose a single file"
  const FileTypeIncorrect := "File type is incorrect"
  const DefaultPrompt := "Drag and drop to upload files, or click to choose"
  const DropPrompt := "Drop files here"

  // ---------------------------------------------------------------------------
  // Filtering the accepted files
  // ---------------------------------------------------------------------------

  /** Extensions of which a drop keeps only the first file: Simplenote and Evernote exports. */
  predicate OneOnly(ext: string)
  {
    ext == "json" || ext == "enex"
  }

  /** The files of `files` whose extension is `ext`, in order. */
  function OfExtension(files: seq<File>, ext: string): seq<File>
  {
    Keep(files, (f: File) => Extension(f.name) == ext)
  }

  /** The files of `files` that are neither Simplenote nor Evernote exports. */
  function Others(files: seq<File>): seq<File>
  {
    Keep(files, (f: File) => !OneOnly(Extension(f.name)))
  }

  lemma OfExtensionSnoc(prior: seq<File>, f: File, ext: string)
    ensures OfExtension(prior + [f], ext) == OfExtension(prior, ext) + if Extension(f.name) == ext then [f] else []
  {
    KeepSnoc(prior, f, (g: File) => Extension(g.name) == ext);
  }

  lemma OthersSnoc(prior: seq<File>, f: File)
    ensures Others(prior + [f]) == Others(prior) + if OneOnly(Extension(f.name)) then [] else [f]
  {
    KeepSnoc(prior, f, (g: File) => !OneOnly(Extension(g.name)));
  }

  /** `f` is an export of a kind of which `prior` already holds one. */
  predicate Repeats(prior: seq<File>, f: File)
  {
    OneOnly(Extension(f.name)) && OfExtension(prior, Extension(f.name)) != []
  }

  /** The files a drop passes on: every file except a repeated export. */
  function Admit(files: seq<File>): seq<File>
  {
    if files == [] then []
    else
      var prior, f := files[..|files| - 1], files[|files| - 1];
      Admit(prior) + if Repeats(prior, f) then [] else [f]
  }

  lemma AdmitSnoc(prior: seq<File>, f: File)
    ensures Admit(prior + [f]) == Admit(prior) + if Repeats(prior, f) then [] else [f]
  {
    assert (prior + [f])[..|prior|] == prior;
  }

  /** One turn of the accept handler's loop, in terms of its two counters. */
  lemma FilterStep(prior: seq<File>, f: File, ext: string, simplenotes: nat, evernotes: nat)
    requires ext == Extension(f.name)
    requires simplenotes == |OfExtension(prior, "json")| && evernotes == |OfExtension(prior, "enex")|
    ensures Admit(prior + [f])
         == Admit(prior) + if (ext == "json" && simplenotes != 0) || (ext == "enex" && evernotes != 0) then [] else [f]
    ensures |OfExtension(prior + [f], "json")| == simplenotes + if ext == "json" then 1 else 0
    ensures |OfExtension(prior + [f], "enex")| == evernotes + if ext == "enex" then 1 else 0
  {
    AdmitSnoc(prior, f);
    OfExtensionSnoc(prior, f, "json");
    OfExtensionSnoc(prior, f, "enex");
  }

  /**
   * The loop of the accept handler, with its two counters of exports seen
   * so far; it computes `Admit`.
   */
  method FilterAccepted(acceptedFiles: seq<File>) returns (filteredFiles: seq<File>)
    ensures filteredFiles == Admit(acceptedFiles)
  {
    var hasSimplenote := 0;
    var hasEvernote := 0;
    filteredFiles := [];
    for i := 0 to |acceptedFiles|
      invariant filteredFiles == Admit(acceptedFiles[..i])
      invariant hasSimplenote == |OfExtension(acceptedFiles[..i], "json")|
      invariant hasEvernote == |OfExtension(acceptedFiles[..i], "enex")|
    {
      var file := acceptedFiles[i];
      var fileExtension := Extension(file.name);
      PrefixSnoc(acceptedFiles, i);
      FilterStep(acceptedFiles[..i], file, fileExtension, hasSimplenote, hasEvernote);
      if fileExtension == "json" {
        if hasSimplenote == 0 {
          filteredFiles := filteredFiles + [file];
        }
        hasSimplenote := hasSimplenote + 1;
      } else if fileExtension == "enex" {
        if hasEvernote == 0 {
          filteredFiles := filteredFiles + [file];
        }
        hasEvernote := hasEvernote + 1;
      } else {
        filteredFiles := filteredFiles + [file];
      }
    }
    assert acceptedFiles[..|acceptedFiles|] == acceptedFiles;
  }

  /** The filter only drops files: what it passes on is in the dropped order. */
  lemma {:induction false} AdmitIsSubsequence(files: seq<File>)
    ensures IsSubsequence(Admit(files), files)
  {
    if files != [] {
      var prior, f := files[..|files| - 1], files[|files| - 1];
      assert files == prior + [f];
      AdmitIsSubsequence(prior);
      if Repeats(prior, f) {
        assert Admit(prior) + [] == Admit(prior);
        SubsequenceOfLonger(Admit(prior), prior, f);
      } else {
        SubsequenceSnoc(Admit(prior), prior, f);
      }
    }
  }

  /** Every file that is not a Simplenote or Evernote export is kept, duplicates included. */
  lemma {:induction false} AdmitKeepsOthers(files: seq<File>)
    ensures Others(Admit(files)) == Others(files)
  {
    if files != [] {
      var prior, f := files[..|files| - 1], files[|files| - 1];
      assert files == prior + [f];
      AdmitKeepsOthers(prior);
      AdmitSnoc(prior, f);
      OthersSnoc(prior, f);
      if Repeats(prior, f) {
        assert Admit(prior) + [] == Admit(prior);
        assert Others(prior) + [] == Others(prior);
      } else {
        OthersSnoc(Admit(prior), f);
      }
    }
  }

  /**
   * Of the Simplenote exports (and of the Evernote exports) only the first
   * one dropped is kept.
   */
  lemma {:induction false} AdmitKeepsFirst(files: seq<File>, ext: string)
    requires OneOnly(ext)
    ensures var all := OfExtension(files, ext);
      OfExtension(Admit(files), ext) == if all == [] then [] else [all[0]]
  {
    if files != [] {
      var prior, f := files[..|files| - 1], files[|files| - 1];
      assert files == prior + [f];
      AdmitKeepsFirst(prior, ext);
      AdmitSnoc(prior, f);
      OfExtensionSnoc(prior, f, ext);
      if Repeats(prior, f) {
        assert Admit(files) == Admit(prior) + [];
        assert Admit(prior) + [] == Admit(prior);
        if Extension(f.name) == ext {
          assert (OfExtension(prior, ext) + [f])[0] == OfExtension(prior, ext)[0];
        } else {
          assert OfExtension(prior, ext) + [] == OfExtension(prior, ext);
        }
      } else {
        OfExtensionSnoc(Admit(prior), f, ext);
        if Extension(f.name) != ext {
          assert OfExtension(prior, ext) + [] == OfExtension(prior, ext);
          assert OfExtension(Admit(prior), ext) + [] == OfExtension(Admit(prior), ext);
        }
      }
    }
  }

  /** Each file is an other file, a Simplenote export or an Evernote export. */
  lemma {:induction false} KindsPartition(files: seq<File>)
    ensures |files| == |Others(files)| + |OfExtension(files, "json")| + |OfExtension(files, "enex")|
  {
    if files != [] {
      var prior, f := files[..|files| - 1], files[|files| - 1];
      assert files == prior + [f];
      KindsPartition(prior);
      OthersSnoc(prior, f);
      OfExtensionSnoc(prior, f, "json");
      OfExtensionSnoc(prior, f, "enex");
    }
  }

  /**
   * A drop loses exactly its repeated exports, and a non-empty drop never
   * becomes empty.
   */
  lemma AdmitLength(files: seq<File>)
    ensures |Admit(files)| == |Others(files)|
      + (if OfExtension(files, "json") == [] then 0 else 1)
      + (if OfExtension(files, "enex") == [] then 0 else 1)
    ensures files != [] ==> Admit(files) != []
  {
    KindsPartition(files);
    KindsPartition(Admit(files));
    AdmitKeepsOthers(files);
    AdmitKeepsFirst(files, "json");
    AdmitKeepsFirst(files, "enex");
  }

  /** Filtering what was already filtered changes nothing. */
  lemma {:induction false} AdmitIdempotent(files: seq<File>)
    ensures Admit(Admit(files)) == Admit(files)
  {
    if files != [] {
      var prior, f := files[..|files| - 1], files[|files| - 1];
      assert files == prior + [f];
      AdmitIdempotent(prior);
      AdmitSnoc(prior, f);
      if Repeats(prior, f) {
        assert Admit(files) == Admit(prior) + [];
        assert Admit(prior) + [] == Admit(prior);
      } else {
        AdmitSnoc(Admit(prior), f);
        if OneOnly(Extension(f.name)) {
          AdmitKeepsFirst(prior, Extension(f.name));
        }
        assert !Repeats(Admit(prior), f);
      }
    }
  }

  // ---------------------------------------------------------------------------
  // Rejection and display
  // ---------------------------------------------------------------------------

  /** The message shown when a drop yields no accepted file. */
  function RejectMessage(multiple: bool, rejectedCount: nat): (message: string)
    ensures message == ChooseSingleFile <==> !multiple && rejectedCount > 1
    ensures message == FileTypeIncorrect <==> multiple || rejectedCount <= 1
  {
    if !multiple && rejectedCount > 1 then ChooseSingleFile else FileTypeIncorrect
  }

  /** What the drop zone reports to its owner. */
  datatype Callback = Accepted(files: seq<File>) | Reset

  /**
   * One drop zone: `acceptedFile` and `errorMessage` are its two pieces of
   * state (None for `undefined`), `calls` the callbacks it has made so far.
   */
  class Dropzone {
    const multiple: bool
    var acceptedFile: Option<seq<File>>
    var errorMessage: Option<string>
    var calls: seq<Callback>

    /** Every message set is a non-empty rejection message; every list stored is non-empty. */
    predicate Valid()
      reads this
    {
      (errorMessage.Some? ==> errorMessage.value == ChooseSingleFile || errorMessage.value == FileTypeIncorrect)
      && (acceptedFile.Some? ==> acceptedFile.value != [])
    }

    constructor (multiple: bool)
      ensures this.multiple == multiple
      ensures acceptedFile == None && errorMessage == None && calls == []
      ensures Valid()
    {
      this.multiple := multiple;
      acceptedFile := None;
      errorMessage := None;
      calls := [];
    }

    /** The prompt: a set, non-empty error message, else the default invitation. */
    function Text(): (text: string)
      reads this
      ensures text != ""
      ensures !(errorMessage.Some? && errorMessage.value != "") ==> text == DefaultPrompt
      ensures errorMessage.Some? && errorMessage.value != "" ==> text == errorMessage.value
    {
      if errorMessage.Some? && errorMessage.value != "" then errorMessage.value else DefaultPrompt
    }

    /** The placeholder: a warning icon while an error is set, and the caption. */
    function Placeholder(isDragActive: bool): (shown: (bool, string))
      reads this
      ensures shown.0 <==> errorMessage.Some? && errorMessage.value != ""
      ensures isDragActive ==> shown.1 == DropPrompt
      ensures !isDragActive ==> shown.1 == Text()
    {
      (errorMessage.Some? && errorMessage.value != "", if isDragActive then DropPrompt else Text())
    }

    /** Stores the filtered files and hands them to the owner. */
    method HandleAccept(acceptedFiles: seq<File>)
      modifies this
      ensures acceptedFile == Some(Admit(acceptedFiles))
      ensures calls == old(calls) + [Accepted(Admit(acceptedFiles))]
      ensures errorMessage == old(errorMessage)
    {
      var filteredFiles := FilterAccepted(acceptedFiles);
      acceptedFile := Some(filteredFiles);
      calls := calls + [Accepted(filteredFiles)];
    }

    /** Shows why the drop failed, forgets the accepted files and resets the owner. */
    method HandleReject(rejectedFiles: seq<File>)
      modifies this
      ensures errorMessage == Some(RejectMessage(multiple, |rejectedFiles|))
      ensures acceptedFile == None
      ensures calls == old(calls) + [Reset]
      ensures Text() == RejectMessage(multiple, |rejectedFiles|)
    {
      if !multiple && |rejectedFiles| > 1 {
        errorMessage := Some(ChooseSingleFile);
      } else {
        errorMessage := Some(FileTypeIncorrect);
      }
      acceptedFile := None;
      calls := calls + [Reset];
    }

    /** A drop: rejected when nothing was accepted, accepted otherwise. */
    method OnDrop(acceptedFiles: seq<File>, rejectedFiles: seq<File>)
      requires Valid()
      modifies this
      ensures Valid()
      ensures |calls| == |old(calls)| + 1 && calls[..|old(calls)|] == old(calls)
      ensures acceptedFiles == [] ==>
        calls[|old(calls)|] == Reset && acceptedFile == None
        && errorMessage == Some(RejectMessage(multiple, |rejectedFiles|))
      ensures acceptedFiles != [] ==>
        calls[|old(calls)|] == Accepted(Admit(acceptedFiles)) && acceptedFile == Some(Admit(acceptedFiles))
        && errorMessage == old(errorMessage)
    {
      if |acceptedFiles| == 0 {
        HandleReject(rejectedFiles);
      } else {
        AdmitLength(acceptedFiles);
        HandleAccept(acceptedFiles);
      }
    }

    /** The error message's timer runs out: the default prompt returns. */
    method ExpireError()
      requires Valid()
      modifies this
      ensures Valid()
      ensures errorMessage == None && Text() == DefaultPrompt
      ensures acceptedFile == old(acceptedFile) && calls == old(calls)
    {
      errorMessage := None;
    }
  }
}
