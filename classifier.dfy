/**
 The link classifier, `validName` in main.go: a fixed allow-list of URL
 substrings, some rows of which apply only while folder recursion is allowed.
 */
module Classifier {
  import opened Strings

  const ResourceView := "/resource/view.php"
  const FolderView := "/folder/view.php"
  const LabelIntro := "mod_label/intro/"
  const PageContent := "mod_page/content"

  /** One row of the allow-list: a URL substring, and whether it is honoured only while recursing. */
  datatype Matcher = Matcher(matcher: string, recurse: bool)

  /** The allow-list in the source's order, its repeated resource row included. */
  const Examples: seq<Matcher> := [
    Matcher(ResourceView, false),
    Matcher(FolderView, true),
    Matcher(ResourceView, false),
    Matcher(LabelIntro, false),
    Matcher(PageContent, false)
  ]

  /** Row `m` lets `name` through in recursion context `recurse`. */
  predicate Admits(m: Matcher, name: string, recurse: bool) {
    (!m.recurse || recurse) && Contains(name, m.matcher)
  }

  /** The source's scan of the table: the first admitting row answers true, running off the end answers false. */
  predicate Search(table: seq<Matcher>, name: string, recurse: bool)
    decreases |table|
  {
    if table == [] then false
    else if table[0].recurse then
      (recurse && Contains(name, table[0].matcher)) || Search(table[1..], name, recurse)
    else
      Contains(name, table[0].matcher) || Search(table[1..], name, recurse)
  }

  /** `validName(name, recurse)`. */
  predicate ValidName(name: string, recurse: bool) {
    Search(Examples, name, recurse)
  }

  /** `validName(name, recurse)` as the source runs it: a loop over the table that returns at the first admitting row. */
  method ValidNameScan(name: string, recurse: bool) returns (ok: bool)
    ensures ok == ValidName(name, recurse)
  {
    var i := 0;
    while i < |Examples|
      invariant 0 <= i <= |Examples|
      invariant ValidName(name, recurse) == Search(Examples[i..], name, recurse)
    {
      var v := Examples[i];
      assert Examples[i..][0] == v && Examples[i..][1..] == Examples[i + 1..];
      if v.recurse {
        if recurse && Contains(name, v.matcher) {
          return true;
        }
        i := i + 1;
        continue;
      }
      if Contains(name, v.matcher) {
        return true;
      }
      i := i + 1;
    }
    return false;
  }

  /** `name` carries one of the patterns that are honoured whatever the recursion context. */
  predicate ResourceLike(name: string) {
    Contains(name, ResourceView) || Contains(name, LabelIntro) || Contains(name, PageContent)
  }

  /** The scan succeeds exactly when some row of the table admits the name. */
  lemma {:induction false} SearchFindsAdmittingRow(table: seq<Matcher>, name: string, recurse: bool)
    ensures Search(table, name, recurse) <==> exists i :: 0 <= i < |table| && Admits(table[i], name, recurse)
  {
    if table != [] {
      SearchFindsAdmittingRow(table[1..], name, recurse);
      if Search(table[1..], name, recurse) {
        var i :| 0 <= i < |table[1..]| && Admits(table[1..][i], name, recurse);
        assert Admits(table[i + 1], name, recurse);
      }
      forall i | 0 < i < |table| && Admits(table[i], name, recurse)
        ensures Search(table[1..], name, recurse)
      {
        assert table[1..][i - 1] == table[i];
      }
    }
  }

  /**
   A name is valid iff it contains a resource, label or page-content pattern,
   or recursion is allowed and it contains the folder pattern.
   */
  lemma ValidNameIff(name: string, recurse: bool)
    ensures ValidName(name, recurse) <==> ResourceLike(name) || (recurse && Contains(name, FolderView))
  {
    SearchFindsAdmittingRow(Examples, name, recurse);
    if Contains(name, ResourceView) {
      assert Admits(Examples[0], name, recurse);
    } else if Contains(name, LabelIntro) {
      assert Admits(Examples[3], name, recurse);
    } else if Contains(name, PageContent) {
      assert Admits(Examples[4], name, recurse);
    } else if recurse && Contains(name, FolderView) {
      assert Admits(Examples[1], name, recurse);
    }
  }
}
