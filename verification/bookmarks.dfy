/**
 * Tower bookmark import: the imported bookmark forest flattened in
 * post-order into `Bookmark` records whose names are the " / "-joined
 * paths of their folders (`extractBookmarksFixed`).
 */
module Bookmarks {

  import opened Base
  import opened Strings

  /** One imported bookmark or folder; `kind` is the source's `type`. */
  datatype TowerNode = TowerNode(
    fileURL: string,
    lastOpenedDate: int,
    name: string,
    repositoryIdentifier: string,
    kind: int,
    valid: bool,
    children: seq<TowerNode>)

  datatype Bookmark = Bookmark(
    folder: string,
    name: string,
    lastOpenedDate: int,
    repositoryIdentifier: string,
    kind: int,
    children: seq<Bookmark>)

  /** The record `new Bookmark()` builds when every argument is left out. */
  const EmptyBookmark := Bookmark("", "", 0, "", 1, [])

  /**
   * The `Bookmark` constructor: each argument left out (`None`) takes its
   * default, "" for the texts, 0 for the date, 1 for the type and no children.
   */
  function Construct(folder: Option<string>, name: Option<string>, lastOpenedDate: Option<int>,
                     repositoryIdentifier: Option<string>, kind: Option<int>, children: Option<seq<Bookmark>>)
    : (b: Bookmark)
    ensures folder.Some? ==> b.folder == folder.value
    ensures name.Some? ==> b.name == name.value
    ensures lastOpenedDate.Some? ==> b.lastOpenedDate == lastOpenedDate.value
    ensures repositoryIdentifier.Some? ==> b.repositoryIdentifier == repositoryIdentifier.value
    ensures kind.Some? ==> b.kind == kind.value
    ensures children.Some? ==> b.children == children.value
    ensures children.None? ==> b.children == []
    ensures folder.None? ==> b.folder == ""
    ensures name.None? ==> b.name == ""
    ensures lastOpenedDate.None? ==> b.lastOpenedDate == 0
    ensures repositoryIdentifier.None? ==> b.repositoryIdentifier == ""
    ensures kind.None? ==> b.kind == 1
  {
    Bookmark(folder.GetOr(""), name.GetOr(""), lastOpenedDate.GetOr(0), repositoryIdentifier.GetOr(""),
             kind.GetOr(1), children.GetOr([]))
  }

  lemma ConstructDefaults()
    ensures Construct(None, None, None, None, None, None) == EmptyBookmark
  {
  }

  /** Passing every field of a bookmark rebuilds that very bookmark. */
  lemma ConstructRebuilds(b: Bookmark)
    ensures Construct(Some(b.folder), Some(b.name), Some(b.lastOpenedDate), Some(b.repositoryIdentifier),
                      Some(b.kind), Some(b.children)) == b
  {
  }

  /** `new Bookmark(folder, name, date, id, kind)`: every field as given, and no children. */
  function NewBookmark(folder: string, name: string, lastOpenedDate: int, repositoryIdentifier: string, kind: int)
    : (b: Bookmark)
    ensures b.folder == folder && b.name == name && b.lastOpenedDate == lastOpenedDate
    ensures b.repositoryIdentifier == repositoryIdentifier && b.kind == kind
    ensures b.children == []
  {
    Construct(Some(folder), Some(name), Some(lastOpenedDate), Some(repositoryIdentifier), Some(kind), None)
  }

  /** The path name of a node: `parents / name`, or the bare name when there are no parents. */
  function PathName(parents: string, name: string): (r: string)
    ensures parents == "" ==> r == name
    ensures parents != "" ==> StartsWith(r, parents + " / ") && r[|parents| + 3..] == name
  {
    if parents != "" then parents + " / " + name else name
  }

  /** The bookmark recorded for one node under the given parents. */
  function Entry(n: TowerNode, parents: string): Bookmark
  {
    NewBookmark(n.fileURL, PathName(parents, n.name), n.lastOpenedDate, n.repositoryIdentifier, n.kind)
  }

  /** `extractBookmarksFixed(forest, parents)`; the empty text stands for absent parents. */
  function Extract(forest: seq<TowerNode>, parents: string): seq<Bookmark>
    decreases forest
  {
    if |forest| == 0 then []
    else ExtractNode(forest[0], parents) + Extract(forest[1..], parents)
  }

  /** One node: its descendants' bookmarks, then its own. */
  function ExtractNode(n: TowerNode, parents: string): seq<Bookmark>
    decreases n
  {
    var name := PathName(parents, n.name);
    (if |n.children| > 0 then Extract(n.children, name) else []) + [Entry(n, parents)]
  }

  /** Number of nodes in a forest, folders included. */
  function CountNodes(forest: seq<TowerNode>): nat
    decreases forest
  {
    if |forest| == 0 then 0 else CountNode(forest[0]) + CountNodes(forest[1..])
  }

  function CountNode(n: TowerNode): nat
    decreases n
  {
    1 + CountNodes(n.children)
  }

  /** One bookmark per node: nothing is dropped, whatever its `valid` flag or type. */
  lemma {:induction false} ExtractCount(forest: seq<TowerNode>, parents: string)
    ensures |Extract(forest, parents)| == CountNodes(forest)
    decreases forest
  {
    if |forest| > 0 {
      ExtractNodeCount(forest[0], parents);
      ExtractCount(forest[1..], parents);
    }
  }

  lemma {:induction false} ExtractNodeCount(n: TowerNode, parents: string)
    ensures |ExtractNode(n, parents)| == CountNode(n)
    decreases n
  {
    if |n.children| > 0 {
      ExtractCount(n.children, PathName(parents, n.name));
    }
  }

  /** Siblings are handled in input order: flattening a concatenation concatenates the results. */
  lemma {:induction false} ExtractConcat(a: seq<TowerNode>, b: seq<TowerNode>, parents: string)
    ensures Extract(a + b, parents) == Extract(a, parents) + Extract(b, parents)
    decreases |a|
  {
    if |a| == 0 {
      assert a + b == b;
    } else {
      assert (a + b)[0] == a[0];
      assert (a + b)[1..] == a[1..] + b;
      ExtractConcat(a[1..], b, parents);
    }
  }

  /** Every flattened bookmark has no children of its own. */
  lemma {:induction false} ExtractFlat(forest: seq<TowerNode>, parents: string)
    ensures forall i :: 0 <= i < |Extract(forest, parents)| ==> Extract(forest, parents)[i].children == []
    decreases forest
  {
    if |forest| > 0 {
      ExtractNodeFlat(forest[0], parents);
      ExtractFlat(forest[1..], parents);
      var x, y := ExtractNode(forest[0], parents), Extract(forest[1..], parents);
      assert forall i :: |x| <= i < |x| + |y| ==> (x + y)[i] == y[i - |x|];
    }
  }

  lemma {:induction false} ExtractNodeFlat(n: TowerNode, parents: string)
    ensures forall i :: 0 <= i < |ExtractNode(n, parents)| ==> ExtractNode(n, parents)[i].children == []
    decreases n
  {
    if |n.children| > 0 {
      ExtractFlat(n.children, PathName(parents, n.name));
    }
  }

  /** Under non-empty parents every name starts with `parents / `. */
  lemma {:induction false} ExtractUnderParents(forest: seq<TowerNode>, parents: string)
    requires parents != ""
    ensures forall i :: 0 <= i < |Extract(forest, parents)| ==>
      StartsWith(Extract(forest, parents)[i].name, parents + " / ")
    decreases forest
  {
    if |forest| > 0 {
      ExtractNodeUnderParents(forest[0], parents);
      ExtractUnderParents(forest[1..], parents);
      var x, y := ExtractNode(forest[0], parents), Extract(forest[1..], parents);
      assert forall i :: |x| <= i < |x| + |y| ==> (x + y)[i] == y[i - |x|];
    }
  }

  lemma {:induction false} ExtractNodeUnderParents(n: TowerNode, parents: string)
    requires parents != ""
    ensures forall i :: 0 <= i < |ExtractNode(n, parents)| ==>
      StartsWith(ExtractNode(n, parents)[i].name, parents + " / ")
    decreases n
  {
    var name := PathName(parents, n.name);
    var prefix := parents + " / ";
    if |n.children| > 0 {
      ExtractUnderParents(n.children, name);
      var kids := Extract(n.children, name);
      forall i | 0 <= i < |kids|
        ensures StartsWith(kids[i].name, prefix)
      {
        assert StartsWith(kids[i].name, name + " / ");
        assert kids[i].name[..|prefix|] == (name + " / ")[..|prefix|];
      }
    }
  }

  /** The node's own bookmark comes last, right after its descendants'. */
  lemma NodeEntryLast(n: TowerNode, parents: string)
    ensures var r := ExtractNode(n, parents);
            && |r| == CountNode(n)
            && r[..|r| - 1] == Extract(n.children, PathName(parents, n.name))
            && r[|r| - 1].name == PathName(parents, n.name)
            && r[|r| - 1].folder == n.fileURL
            && r[|r| - 1].lastOpenedDate == n.lastOpenedDate
            && r[|r| - 1].repositoryIdentifier == n.repositoryIdentifier
            && r[|r| - 1].kind == n.kind
  {
    ExtractNodeCount(n, parents);
  }

  // ---------------------------------------------------------------------
  // The sample forest
  // ---------------------------------------------------------------------

  function Leaf(name: string, url: string, id: string): TowerNode
  {
    TowerNode(url, 0, name, id, 1, true, [])
  }

  function Folder(name: string, children: seq<TowerNode>): TowerNode
  {
    TowerNode("", 0, name, "", 2, true, children)
  }

  const Repo1 := Leaf("Repo 1", "file:///repo1", "id1")
  const Repo2 := Leaf("Repo 2", "file:///repo2", "id2")
  const Repo3 := Leaf("Repo 3", "file:///repo3", "id3")
  const Subfolder1 := Folder("Subfolder 1", [Repo2])
  const Folder1 := Folder("Folder 1", [Repo1, Subfolder1])
  const Sample := [Folder1, Repo3]

  /** The names of a list of bookmarks, in order. */
  function Names(bs: seq<Bookmark>): (names: seq<string>)
    ensures |names| == |bs| && forall i :: 0 <= i < |bs| ==> names[i] == bs[i].name
  {
    seq(|bs|, i requires 0 <= i < |bs| => bs[i].name)
  }

  lemma SubfolderFlattens()
    ensures ExtractNode(Subfolder1, "Folder 1")
            == [Entry(Repo2, "Folder 1 / Subfolder 1"), Entry(Subfolder1, "Folder 1")]
  {
    assert PathName("Folder 1", "Subfolder 1") == "Folder 1 / Subfolder 1";
    assert Extract([Repo2], "Folder 1 / Subfolder 1") == [Entry(Repo2, "Folder 1 / Subfolder 1")];
  }

  lemma Folder1Flattens()
    ensures ExtractNode(Folder1, "")
            == [Entry(Repo1, "Folder 1"), Entry(Repo2, "Folder 1 / Subfolder 1"), Entry(Subfolder1, "Folder 1"),
                Entry(Folder1, "")]
  {
    SubfolderFlattens();
    assert PathName("", "Folder 1") == "Folder 1";
    assert Extract([Subfolder1], "Folder 1") == ExtractNode(Subfolder1, "Folder 1");
    assert Extract([Repo1, Subfolder1], "Folder 1") == [Entry(Repo1, "Folder 1")] + ExtractNode(Subfolder1, "Folder 1");
  }

  lemma Folder1Names()
    ensures Names(ExtractNode(Folder1, "")) == ["Folder 1 / Repo 1", "Folder 1 / Subfolder 1 / Repo 2",
                                               "Folder 1 / Subfolder 1", "Folder 1"]
  {
    Folder1Flattens();
    SamplePathNames();
  }

  lemma SamplePathNames()
    ensures PathName("Folder 1", "Repo 1") == "Folder 1 / Repo 1"
    ensures PathName("Folder 1 / Subfolder 1", "Repo 2") == "Folder 1 / Subfolder 1 / Repo 2"
    ensures PathName("Folder 1", "Subfolder 1") == "Folder 1 / Subfolder 1"
    ensures PathName("", "Folder 1") == "Folder 1"
  {
  }

  /** The sample yields five bookmarks, deepest first within each folder. */
  lemma SampleFlattens()
    ensures Names(Extract(Sample, "")) == ["Folder 1 / Repo 1", "Folder 1 / Subfolder 1 / Repo 2",
                                          "Folder 1 / Subfolder 1", "Folder 1", "Repo 3"]
  {
    var first := ExtractNode(Folder1, "");
    Folder1Names();
    assert Extract([Repo3], "") == [Entry(Repo3, "")];
    assert Extract(Sample, "") == first + [Entry(Repo3, "")];
    assert Entry(Repo3, "").name == "Repo 3";
    assert Names(first + [Entry(Repo3, "")]) == Names(first) + ["Repo 3"];
  }
}
