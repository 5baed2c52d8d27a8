/**
 * The tabs of `graphbook.rs`: each tab owns a graph view, a file name and a
 * label text, and moves between undefined, modified and saved. New tab ids and
 * new graph view ids are one more than the largest in use. Labels are
 * strings; the widgets showing them are not modelled.
 */
module Graphbook {
  import opened Wrappers
  import GraphView

  datatype TabState = Undefined | Modified | Saved

  /** `path` with its last character dropped. */
  function DropLast(path: string): string
    requires |path| > 0
  {
    path[..|path| - 1]
  }

  /** The characters after the last '/' of `path` (all of it when there is none). */
  function LastSegment(path: string): (seg: string)
    ensures '/' !in seg
    ensures |seg| <= |path|
  {
    if path == [] || path[|path| - 1] == '/' then []
    else LastSegment(DropLast(path)) + [path[|path| - 1]]
  }

  /**
   * `Path::file_name` on a Unix path: trailing separators and trailing "."
   * components are skipped; the last component is then the file name,
   * unless there is none or it is "..".
   */
  function FileName(path: string): (r: Option<string>)
    ensures r.Some? ==> r.value != [] && '/' !in r.value && r.value != "." && r.value != ".."
  {
    if path == [] then None
    else if path[|path| - 1] == '/' then FileName(DropLast(path))
    else if path == "." || (|path| >= 2 && path[|path| - 2..] == "/.") then FileName(DropLast(path))
    else
      var seg := LastSegment(path);
      LastSegmentNamed(path);
      if seg == ".." then None else Some(seg)
  }

  /**
   * A path that ends neither with '/' nor with a "." component has a last
   * segment that is neither empty nor ".".
   */
  lemma LastSegmentNamed(path: string)
    requires path != [] && path[|path| - 1] != '/'
    requires path != "." && !(|path| >= 2 && path[|path| - 2..] == "/.")
    ensures LastSegment(path) != [] && LastSegment(path) != "."
  {
    var front, last := DropLast(path), path[|path| - 1];
    assert LastSegment(path) == LastSegment(front) + [last];
    if LastSegment(front) == [] {
      LastComponentChar(path, front, last);
    }
  }

  /** A one-character last segment that is not a "." component is not ".". */
  lemma LastComponentChar(path: string, front: string, last: char)
    requires path != [] && front == DropLast(path) && last == path[|path| - 1]
    requires front == [] || front[|front| - 1] == '/'
    requires path != "." && !(|path| >= 2 && path[|path| - 2..] == "/.")
    ensures last != '.'
  {
    if front == [] {
      assert path == [last];
    } else {
      assert path[|path| - 2..] == ['/', last];
    }
  }

  /** The last segment ends `path`, right after a '/' unless it is all of `path`. */
  lemma {:induction false} LastSegmentSuffix(path: string)
    ensures |LastSegment(path)| < |path| ==> path[|path| - |LastSegment(path)| - 1] == '/'
    ensures path[|path| - |LastSegment(path)|..] == LastSegment(path)
  {
    if path != [] && path[|path| - 1] != '/' {
      LastSegmentSuffix(DropLast(path));
    }
  }

  /** A plain file name: not empty, no separator, not "." or "..". */
  predicate PlainName(name: string)
  {
    name != [] && '/' !in name && name != "." && name != ".."
  }

  /** The last segment of a path ending in a plain name is that name. */
  lemma {:induction false} LastSegmentOfJoin(dir: string, name: string)
    requires '/' !in name
    ensures LastSegment(dir + "/" + name) == name
    decreases |name|
  {
    var path := dir + "/" + name;
    if name != [] {
      var front := name[..|name| - 1];
      assert DropLast(path) == dir + "/" + front;
      LastSegmentOfJoin(dir, front);
      assert name == front + [name[|name| - 1]];
    }
  }

  /** A plain name needs no directory around it to be its own file name. */
  lemma {:induction false} LastSegmentOfPlain(name: string)
    requires '/' !in name
    ensures LastSegment(name) == name
    decreases |name|
  {
    if name != [] {
      var front := name[..|name| - 1];
      LastSegmentOfPlain(front);
      assert name == front + [name[|name| - 1]];
    }
  }

  /** The file name of `dir/name` is `name`, and a bare plain name is its own file name. */
  lemma FileNameOfJoin(dir: string, name: string)
    requires PlainName(name)
    ensures FileName(dir + "/" + name) == Some(name)
    ensures FileName(name) == Some(name)
  {
    var path := dir + "/" + name;
    LastSegmentOfJoin(dir, name);
    LastSegmentOfPlain(name);
    assert path[|path| - 1] == name[|name| - 1];
    if |name| == 1 {
      assert path[|path| - 2] == '/' && path[|path| - 1] == name[0];
    } else {
      assert path[|path| - 2] == name[|name| - 2];
      assert name[|name| - 2] in name;
    }
  }

  class GraphTab {
    const id: nat
    const graphview: GraphView.GraphView
    var filename: string
    var name: string
    var state: TabState

    /**
     * `GraphTab::new`: a tab with the given id and file name, labelled
     * "Untitled*", in the undefined state, whose fresh graph view takes the
     * next graph view id of the book.
     */
    constructor (book: map<nat, GraphTab>, id: nat, filename: string)
      ensures this.id == id && this.filename == filename
      ensures name == "Untitled*" && state == Undefined
      ensures fresh(graphview)
      ensures forall t :: t in book.Values ==> t.graphview.id < graphview.id
      ensures graphview.id == 1 || exists t :: t in book.Values && t.graphview.id == graphview.id - 1
    {
      var viewId := NewGraphviewId(book);
      var view := new GraphView.GraphView();
      view.SetId(viewId);
      this.id := id;
      this.graphview := view;
      this.filename := filename;
      name := "Untitled*";
      state := Undefined;
    }

    /** `basename`: the file name of the stored path; the source unwraps it. */
    function Basename(): (r: string)
      reads this
      requires FileName(filename).Some?
      ensures PlainName(r)
    {
      FileName(filename).value
    }

    /** `set_name`: the label text. */
    method SetName(text: string)
      modifies this
      ensures name == text
      ensures filename == old(filename) && state == old(state)
    {
      name := text;
    }

    /**
     * `set_modified`: a modified tab is labelled with its file name and a
     * trailing '*', a saved one with the bare file name.
     */
    method SetModified(modified: bool)
      requires FileName(filename).Some?
      modifies this
      ensures filename == old(filename)
      ensures modified ==> state == Modified && name == Basename() + "*"
      ensures !modified ==> state == Saved && name == Basename()
    {
      var base := Basename();
      if modified {
        SetName(base + "*");
        state := Modified;
      } else {
        SetName(base);
        state := Saved;
      }
    }

    /** `set_filename`: stores the path and leaves the tab saved under its file name. */
    method SetFilename(filename: string)
      requires FileName(filename).Some?
      modifies this
      ensures this.filename == filename
      ensures state == Saved && name == FileName(filename).value
    {
      this.filename := filename;
      SetName(Basename());
      SetModified(false);
    }

    /** `undefined`: the tab has never been saved nor modified. */
    predicate IsUndefined()
      reads this
    {
      state == Undefined
    }

    /** `modified`: the tab holds unsaved changes. */
    predicate IsModified()
      reads this
    {
      state == Modified
    }
  }

  /**
   * `graphbook_get_new_graphtab_id`: one more than the largest tab id, so
   * above every tab id, and 1 for an empty book.
   */
  method NewGraphtabId(book: map<nat, GraphTab>) returns (newId: nat)
    ensures forall t :: t in book.Values ==> t.id < newId
    ensures newId == 1 || exists t :: t in book.Values && t.id == newId - 1
  {
    var largest := 0;
    var pending := book.Values;
    while pending != {}
      invariant pending <= book.Values
      invariant forall t :: t in book.Values - pending ==> t.id <= largest
      invariant largest == 0 || exists t :: t in book.Values - pending && t.id == largest
      decreases pending
    {
      var tab :| tab in pending;
      if tab.id > largest {
        largest := tab.id;
      }
      pending := pending - {tab};
    }
    newId := largest + 1;
  }

  /**
   * `graphbook_get_new_graphview_id`: one more than the largest graph view
   * id of the book's tabs, and 1 for an empty book.
   */
  method NewGraphviewId(book: map<nat, GraphTab>) returns (newId: nat)
    ensures forall t :: t in book.Values ==> t.graphview.id < newId
    ensures newId == 1 || exists t :: t in book.Values && t.graphview.id == newId - 1
  {
    var largest := 0;
    var pending := book.Values;
    while pending != {}
      invariant pending <= book.Values
      invariant forall t :: t in book.Values - pending ==> t.graphview.id <= largest
      invariant largest == 0 || exists t :: t in book.Values - pending && t.graphview.id == largest
      decreases pending
    {
      var tab :| tab in pending;
      if tab.graphview.id > largest {
        largest := tab.graphview.id;
      }
      pending := pending - {tab};
    }
    newId := largest + 1;
  }

  /**
   * `create_graphtab`: a new undefined tab under `id`, named after the given
   * file or "Untitled", stored in the book.
   */
  method CreateGraphtab(book: map<nat, GraphTab>, id: nat, name: Option<string>)
    returns (updated: map<nat, GraphTab>, tab: GraphTab)
    ensures fresh(tab) && updated == book[id := tab]
    ensures tab.id == id && tab.state == Undefined
    ensures tab.filename == (if name.Some? then name.value else "Untitled")
  {
    tab := new GraphTab(book, id, name.UnwrapOr("Untitled"));
    updated := book[id := tab];
  }
}
