/**
 * User-selected files and the extension rule shared by the importer and the
 * dropzone: `name.substring(name.lastIndexOf('.') + 1) || name`.
 */
module Files {

  /** A file handle; only its name takes part in routing and admission. */
  datatype File = File(name: string)

  /** `s.lastIndexOf(c)`: the position of the last `c` in `s`, or -1 when there is none. */
  function LastIndexOf(s: string, c: char): (r: int)
    ensures -1 <= r < |s|
    ensures r >= 0 ==> s[r] == c
    ensures forall j :: r < j < |s| ==> s[j] != c
  {
    if s == [] then -1
    else if s[|s| - 1] == c then |s| - 1
    else LastIndexOf(s[..|s| - 1], c)
  }

  /** A name that holds a '.' has a last one. */
  lemma HasLastDot(name: string)
    ensures '.' in name ==> LastIndexOf(name, '.') >= 0
  {
    if '.' in name {
      var k :| 0 <= k < |name| && name[k] == '.';
      assert !(LastIndexOf(name, '.') < k);
    }
  }

  /** Nothing after the last '.' is a '.'. */
  lemma NoDotAfterLast(name: string)
    ensures '.' !in name[LastIndexOf(name, '.') + 1..]
  {
    var dot := LastIndexOf(name, '.');
    var tail := name[dot + 1..];
    forall i | 0 <= i < |tail|
      ensures tail[i] != '.'
    {
      assert tail[i] == name[dot + 1 + i];
    }
  }

  /** `name.substring(name.lastIndexOf('.') + 1)`: the dot-free suffix after the last '.'. */
  function AfterLastDot(name: string): (tail: string)
    ensures '.' !in tail
    ensures |tail| <= |name| && name[|name| - |tail|..] == tail
    ensures '.' in name ==> |tail| < |name| && name[|name| - |tail| - 1] == '.'
    ensures '.' !in name ==> tail == name
  {
    HasLastDot(name);
    NoDotAfterLast(name);
    name[LastIndexOf(name, '.') + 1..]
  }

  /**
   * The extension of a file name: the text after the last '.', or the whole
   * name when there is no '.' or when nothing follows the last one (an empty
   * substring is falsy, so `|| name` takes over).
   */
  function Extension(name: string): (ext: string)
    ensures '.' !in name ==> ext == name
    ensures '.' in name && name[|name| - 1] == '.' ==> ext == name
    ensures '.' in name && name[|name| - 1] != '.' ==>
      && ext != []
      && '.' !in ext
      && |ext| < |name|
      && name[|name| - |ext| - 1] == '.'
      && name[|name| - |ext|..] == ext
  {
    var tail := AfterLastDot(name);
    assert tail != [] ==> tail[|tail| - 1] == name[|name| - 1];
    if tail != [] then tail else name
  }

  /** A non-empty, dot-free text after a name's last '.' is exactly its extension. */
  lemma ExtensionAfterDot(stem: string, ext: string)
    requires ext != [] && '.' !in ext
    ensures Extension(stem + "." + ext) == ext
  {
    var name := stem + "." + ext;
    assert name[|stem|] == '.';
    assert name[|name| - 1] == ext[|ext| - 1];
    assert name[|name| - |ext|..] == ext;
  }

  /** A name without a dot is its own extension. */
  lemma BareNameExtension()
    ensures Extension("json") == "json"
  {
    assert '.' !in "json" by {
      assert "json" == ['j', 's', 'o', 'n'];
    }
  }

  /** A name ending in a dot is its own extension. */
  lemma TrailingDotExtension()
    ensures Extension("a.") == "a."
  {
    assert "a."[1] == '.';
  }

  /** A dotted name's extension is what follows the last dot. */
  lemma DottedNameExtension()
    ensures Extension("note1.txt") == "txt"
  {
    ExtensionAfterDot("note1", "txt");
    assert "note1" + "." + "txt" == "note1.txt";
  }

  /** The extension keeps its case. */
  lemma UpperCaseExtension()
    ensures Extension("memo.JSON") == "JSON"
  {
    ExtensionAfterDot("memo", "JSON");
    assert "memo" + "." + "JSON" == "memo.JSON";
  }
}
