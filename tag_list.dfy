/**
 * The tag list in the navigation bar: which tags it shows and in what
 * order, when it offers the Edit/Done toggle, and what each row is told.
 */
module TagList {
  import opened Wrappers
  import opened Sequences
  import opened Sorting

  /** A tag: its name and its optional position in the user's manual order. */
  datatype Tag = Tag(name: string, index: Option<int>)

  /** One entry of the tag map: the tag's hash and the tag. */
  datatype Entry = Entry(hash: string, tag: Tag)

  /** The keys of the tag map are distinct. */
  ghost predicate DistinctKeys(tags: seq<Entry>)
  {
    forall i, j :: 0 <= i < j < |tags| ==> tags[i].hash != tags[j].hash
  }

  // ---------------------------------------------------------------------------
  // Ordering
  // ---------------------------------------------------------------------------

  /**
   * The comparator of the list: by name when sorting alphabetically,
   * otherwise by index, with tags that have no index after those that do.
   */
  function Compare(sortTagsAlpha: bool, localeCompare: (string, string) -> int, a: Entry, b: Entry): (r: int)
    ensures sortTagsAlpha ==> r == localeCompare(a.tag.name, b.tag.name)
    ensures !sortTagsAlpha && a.tag.index.Some? && b.tag.index.Some? ==>
      (r < 0 <==> a.tag.index.value < b.tag.index.value) && (r == 0 <==> a.tag.index.value == b.tag.index.value)
    ensures !sortTagsAlpha && a.tag.index.Some? && b.tag.index.None? ==> r < 0
    ensures !sortTagsAlpha && a.tag.index.None? ==> r > 0
  {
    if sortTagsAlpha then localeCompare(a.tag.name, b.tag.name)
    else if a.tag.index.Some? && b.tag.index.Some? then a.tag.index.value - b.tag.index.value
    else if a.tag.index.None? then 1
    else -1
  }

  /**
   * By index the comparator is antisymmetric except for two tags without
   * an index, which each compare above the other.
   */
  lemma CompareAntisymmetry(localeCompare: (string, string) -> int, a: Entry, b: Entry)
    ensures Compare(false, localeCompare, a, b) == -Compare(false, localeCompare, b, a)
        <==> a.tag.index.Some? || b.tag.index.Some?
    ensures a.tag.index.None? && b.tag.index.None? ==>
      Compare(false, localeCompare, a, b) == Compare(false, localeCompare, b, a) == 1
  {
  }

  function Order(sortTagsAlpha: bool, localeCompare: (string, string) -> int): (Entry, Entry) -> int
  {
    (a: Entry, b: Entry) => Compare(sortTagsAlpha, localeCompare, a, b)
  }

  /** The tags that are not email addresses (shared-with entries). */
  function Visible(tags: seq<Entry>, isEmailTag: string -> bool): seq<Entry>
  {
    Keep(tags, (e: Entry) => !isEmailTag(e.tag.name))
  }

  /** The list's items: the visible tags of the map, in map order, sorted. */
  function SortedTags(tags: seq<Entry>, sortTagsAlpha: bool, localeCompare: (string, string) -> int,
                      isEmailTag: string -> bool): seq<Entry>
  {
    Sort(Visible(tags, isEmailTag), Order(sortTagsAlpha, localeCompare))
  }

  /** The list shows every tag that is not an email address, each once, and no other. */
  lemma SortedTagsContents(tags: seq<Entry>, sortTagsAlpha: bool, localeCompare: (string, string) -> int,
                           isEmailTag: string -> bool)
    ensures multiset(SortedTags(tags, sortTagsAlpha, localeCompare, isEmailTag)) == multiset(Visible(tags, isEmailTag))
    ensures forall e :: (e in SortedTags(tags, sortTagsAlpha, localeCompare, isEmailTag)
      <==> e in tags && !isEmailTag(e.tag.name))
  {
    var visible := Visible(tags, isEmailTag);
    var sorted := SortedTags(tags, sortTagsAlpha, localeCompare, isEmailTag);
    SortPermutes(visible, Order(sortTagsAlpha, localeCompare));
    forall e ensures e in sorted <==> e in tags && !isEmailTag(e.tag.name) {
      KeepCount(tags, (e: Entry) => !isEmailTag(e.tag.name), e);
      assert e in sorted <==> e in multiset(sorted);
      assert e in tags <==> e in multiset(tags);
    }
  }

  /** Alphabetically, by a collation that is a total preorder, the list is in order. */
  lemma AlphaSorted(tags: seq<Entry>, localeCompare: (string, string) -> int, isEmailTag: string -> bool)
    requires Consistent(localeCompare)
    ensures var sorted := SortedTags(tags, true, localeCompare, isEmailTag);
      forall i, j :: 0 <= i < j < |sorted| ==> localeCompare(sorted[i].tag.name, sorted[j].tag.name) <= 0
  {
    var cmp := Order(true, localeCompare);
    assert Consistent(cmp) by {
      forall a: Entry, b: Entry ensures cmp(a, b) < 0 <==> cmp(b, a) > 0 {
        assert cmp(a, b) == localeCompare(a.tag.name, b.tag.name);
        assert cmp(b, a) == localeCompare(b.tag.name, a.tag.name);
      }
      forall a: Entry, b: Entry, c: Entry | cmp(a, b) <= 0 && cmp(b, c) <= 0 ensures cmp(a, c) <= 0 {
        assert localeCompare(a.tag.name, b.tag.name) <= 0 && localeCompare(b.tag.name, c.tag.name) <= 0;
      }
    }
    SortSorted(Visible(tags, isEmailTag), cmp);
  }

  /** Tags with an index come first, in ascending index order. */
  ghost predicate IndexOrdered(s: seq<Entry>)
  {
    forall i, j :: 0 <= i < j < |s| && s[j].tag.index.Some? ==>
      s[i].tag.index.Some? && s[i].tag.index.value <= s[j].tag.index.value
  }

  /** The tags without an index, in order. */
  function Unindexed(s: seq<Entry>): seq<Entry>
  {
    Keep(s, (e: Entry) => e.tag.index.None?)
  }

  lemma IndexOrderedCons(x: Entry, s: seq<Entry>)
    requires IndexOrdered(s)
    requires forall j :: 0 <= j < |s| && s[j].tag.index.Some? ==>
      x.tag.index.Some? && x.tag.index.value <= s[j].tag.index.value
    ensures IndexOrdered([x] + s)
  {
    var r := [x] + s;
    forall i, j | 0 <= i < j < |r| && r[j].tag.index.Some?
      ensures r[i].tag.index.Some? && r[i].tag.index.value <= r[j].tag.index.value
    {
      assert r[j] == s[j - 1];
      if i > 0 {
        assert r[i] == s[i - 1];
      }
    }
  }

  lemma {:induction false} InsertIndexOrdered(x: Entry, s: seq<Entry>, localeCompare: (string, string) -> int)
    requires IndexOrdered(s)
    ensures IndexOrdered(Insert(x, s, Order(false, localeCompare)))
  {
    var cmp := Order(false, localeCompare);
    if s != [] {
      if cmp(x, s[0]) < 0 {
        assert x.tag.index.Some?;
        forall j | 0 <= j < |s| && s[j].tag.index.Some?
          ensures x.tag.index.value <= s[j].tag.index.value
        {
          if j > 0 {
            assert s[0].tag.index.Some? && s[0].tag.index.value <= s[j].tag.index.value;
          }
        }
        IndexOrderedCons(x, s);
      } else {
        var tail := s[1..];
        assert IndexOrdered(tail) by {
          forall i, j | 0 <= i < j < |tail| && tail[j].tag.index.Some?
            ensures tail[i].tag.index.Some? && tail[i].tag.index.value <= tail[j].tag.index.value
          {
            assert tail[i] == s[i + 1] && tail[j] == s[j + 1];
          }
        }
        InsertIndexOrdered(x, tail, localeCompare);
        var k := InsertShape(x, tail, cmp);
        var rest := Insert(x, tail, cmp);
        forall j | 0 <= j < |rest| && rest[j].tag.index.Some?
          ensures s[0].tag.index.Some? && s[0].tag.index.value <= rest[j].tag.index.value
        {
          if j < k {
            assert rest[j] == tail[j] == s[j + 1];
          } else if j > k {
            assert rest[j] == tail[j - 1] == s[j];
          } else {
            assert rest[j] == x;
          }
        }
        IndexOrderedCons(s[0], rest);
      }
    }
  }

  /** A tag without an index goes after everything already sorted. */
  lemma {:induction false} InsertUnindexedAppends(x: Entry, s: seq<Entry>, localeCompare: (string, string) -> int)
    requires x.tag.index.None?
    ensures Insert(x, s, Order(false, localeCompare)) == s + [x]
  {
    if s != [] {
      InsertUnindexedAppends(x, s[1..], localeCompare);
      assert s == [s[0]] + s[1..];
    }
  }

  lemma InsertKeepsUnindexed(x: Entry, s: seq<Entry>, localeCompare: (string, string) -> int)
    ensures Unindexed(Insert(x, s, Order(false, localeCompare)))
         == Unindexed(s) + if x.tag.index.None? then [x] else []
  {
    var p := (e: Entry) => e.tag.index.None?;
    if x.tag.index.None? {
      InsertUnindexedAppends(x, s, localeCompare);
      KeepSnoc(s, x, p);
    } else {
      var k := InsertShape(x, s, Order(false, localeCompare));
      assert s == s[..k] + s[k..];
      KeepAppend(s[..k] + [x], s[k..], p);
      KeepSnoc(s[..k], x, p);
      KeepAppend(s[..k], s[k..], p);
      assert Keep(s[..k], p) + [] == Keep(s[..k], p);
    }
  }

  lemma {:induction false} SortByIndex(xs: seq<Entry>, localeCompare: (string, string) -> int)
    ensures IndexOrdered(Sort(xs, Order(false, localeCompare)))
    ensures Unindexed(Sort(xs, Order(false, localeCompare))) == Unindexed(xs)
  {
    if xs != [] {
      var init, last := xs[..|xs| - 1], xs[|xs| - 1];
      assert xs == init + [last];
      SortByIndex(init, localeCompare);
      InsertIndexOrdered(last, Sort(init, Order(false, localeCompare)), localeCompare);
      InsertKeepsUnindexed(last, Sort(init, Order(false, localeCompare)), localeCompare);
      KeepSnoc(init, last, (e: Entry) => e.tag.index.None?);
    }
  }

  /**
   * By index, the list shows the indexed tags first in ascending index
   * order, then the tags without an index in the map's order.
   */
  lemma IndexModeOrder(tags: seq<Entry>, localeCompare: (string, string) -> int, isEmailTag: string -> bool)
    ensures IndexOrdered(SortedTags(tags, false, localeCompare, isEmailTag))
    ensures Unindexed(SortedTags(tags, false, localeCompare, isEmailTag)) == Unindexed(Visible(tags, isEmailTag))
  {
    SortByIndex(Visible(tags, isEmailTag), localeCompare);
  }

  // ---------------------------------------------------------------------------
  // The header toggle and the rows
  // ---------------------------------------------------------------------------

  /** The label of the Edit toggle, or None when the toggle is not rendered. */
  function EditToggle(sortedTags: seq<Entry>, editingTags: bool): (toggle: Option<string>)
    ensures toggle.None? <==> sortedTags == []
    ensures toggle == Some("Done") <==> sortedTags != [] && editingTags
    ensures toggle == Some("Edit") <==> sortedTags != [] && !editingTags
  {
    if |sortedTags| > 0 then Some(if editingTags then "Done" else "Edit") else None
  }

  /** The toggle appears exactly when the map holds a tag that is not an email address. */
  lemma ToggleShown(tags: seq<Entry>, sortTagsAlpha: bool, localeCompare: (string, string) -> int,
                    isEmailTag: string -> bool, editingTags: bool)
    ensures EditToggle(SortedTags(tags, sortTagsAlpha, localeCompare, isEmailTag), editingTags).Some?
        <==> exists i :: 0 <= i < |tags| && !isEmailTag(tags[i].tag.name)
  {
    var sorted := SortedTags(tags, sortTagsAlpha, localeCompare, isEmailTag);
    SortedTagsContents(tags, sortTagsAlpha, localeCompare, isEmailTag);
    if sorted != [] {
      assert sorted[0] in sorted;
      var i :| 0 <= i < |tags| && tags[i] == sorted[0];
    }
    if i :| 0 <= i < |tags| && !isEmailTag(tags[i].tag.name) {
      assert tags[i] in sorted;
    }
  }

  /** What one row is given, and what it renders as a consequence. */
  datatype Row = Row(hash: string, name: string, allowReordering: bool, editingActive: bool,
                     isSelected: bool, showsTrash: bool, showsHandle: bool, clickOpens: bool)

  function RowFor(entry: Entry, openedTag: Option<string>, sortTagsAlpha: bool, editingTags: bool): (row: Row)
    ensures row.hash == entry.hash && row.name == entry.tag.name
    ensures row.isSelected <==> openedTag == Some(entry.hash)
    ensures row.allowReordering <==> !sortTagsAlpha
    ensures row.showsTrash <==> editingTags
    ensures row.showsHandle <==> editingTags && !sortTagsAlpha
    ensures row.clickOpens <==> !editingTags
  {
    var allowReordering := !sortTagsAlpha;
    Row(entry.hash, entry.tag.name, allowReordering, editingTags, openedTag == Some(entry.hash),
        editingTags, editingTags && allowReordering, !editingTags)
  }

  function Rows(items: seq<Entry>, openedTag: Option<string>, sortTagsAlpha: bool, editingTags: bool): (rows: seq<Row>)
    ensures |rows| == |items|
    ensures forall i :: 0 <= i < |items| ==> rows[i] == RowFor(items[i], openedTag, sortTagsAlpha, editingTags)
  {
    seq(|items|, i requires 0 <= i < |items| => RowFor(items[i], openedTag, sortTagsAlpha, editingTags))
  }

  /** How many entries carry the hash `h`. */
  function HashCount(s: seq<Entry>, h: string): nat
  {
    |Keep(s, (e: Entry) => e.hash == h)|
  }

  lemma {:induction false} DistinctKeysCount(tags: seq<Entry>, h: string)
    requires DistinctKeys(tags)
    ensures HashCount(tags, h) <= 1
  {
    var p := (e: Entry) => e.hash == h;
    if tags != [] {
      var init, last := tags[..|tags| - 1], tags[|tags| - 1];
      assert tags == init + [last];
      DistinctKeysCount(init, h);
      KeepSnoc(init, last, p);
      if last.hash == h {
        assert forall i :: 0 <= i < |init| ==> init[i] == tags[i] && tags[i].hash != h;
        KeepNone(init, p);
      }
    }
  }

  /**
   * Given the map's distinct keys, at most one row is selected, and one is
   * exactly when the opened tag is a listed tag.
   */
  lemma SelectedRows(tags: seq<Entry>, openedTag: Option<string>, sortTagsAlpha: bool, editingTags: bool,
                     localeCompare: (string, string) -> int, isEmailTag: string -> bool)
    requires DistinctKeys(tags)
    ensures var rows := Rows(SortedTags(tags, sortTagsAlpha, localeCompare, isEmailTag), openedTag, sortTagsAlpha, editingTags);
      && (forall i, j :: 0 <= i < j < |rows| ==> !(rows[i].isSelected && rows[j].isSelected))
      && ((exists i :: 0 <= i < |rows| && rows[i].isSelected)
          <==> exists e :: e in tags && !isEmailTag(e.tag.name) && openedTag == Some(e.hash))
  {
    var sorted := SortedTags(tags, sortTagsAlpha, localeCompare, isEmailTag);
    var rows := Rows(sorted, openedTag, sortTagsAlpha, editingTags);
    SortedTagsContents(tags, sortTagsAlpha, localeCompare, isEmailTag);
    forall i, j | 0 <= i < j < |rows| ensures !(rows[i].isSelected && rows[j].isSelected) {
      if rows[i].isSelected && rows[j].isSelected {
        var h := openedTag.value;
        var p := (e: Entry) => e.hash == h;
        KeepTwo(sorted, p, i, j);
        SortKeepsCount(Visible(tags, isEmailTag), Order(sortTagsAlpha, localeCompare), p);
        KeepOfKeep(tags, (e: Entry) => !isEmailTag(e.tag.name), p);
        DistinctKeysCount(tags, h);
        assert false;
      }
    }
    if e :| e in tags && !isEmailTag(e.tag.name) && openedTag == Some(e.hash) {
      assert e in sorted;
      var i :| 0 <= i < |sorted| && sorted[i] == e;
      assert rows[i].isSelected;
    }
  }
}
