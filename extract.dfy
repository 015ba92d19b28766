/**
 * `extractThemeElement(doc, tag)`: every element stored under the key `tag`
 * anywhere in the document, in document order (a depth-first, pre-order
 * walk over every key of every element).
 */
module Extract {
  import opened Document

  const RootTag := "look-and-feel"

  /** The matches inside `n`'s subtree (`n` itself is not examined). */
  function ExtractNode(n: Node, tag: string): seq<Node>
    decreases n, 2
  {
    match n
    case Text(_) => []
    case Element(_, fs) => ExtractFields(fs, tag)
  }

  /** The matches under the keys `fs` of one element, key by key. */
  function ExtractFields(fs: seq<Field>, tag: string): seq<Node>
    decreases fs, 1
  {
    if fs == [] then []
    else ExtractItems(fs[0].items, fs[0].tag, tag) + ExtractFields(fs[1..], tag)
  }

  /** The matches in the array stored under `key`: each item if `key` is `tag`, then its own matches. */
  function ExtractItems(items: seq<Node>, key: string, tag: string): seq<Node>
    decreases items, 0
  {
    if items == [] then []
    else
      (if key == tag then [items[0]] else []) +
      ExtractNode(items[0], tag) +
      ExtractItems(items[1..], key, tag)
  }

  /** `extractThemeElement(doc, tag)`, starting at the `look-and-feel` root. */
  function ExtractThemeElement(d: Doc, tag: string): seq<Node>
  {
    ExtractItems([d.root], RootTag, tag)
  }

  // ---------------------------------------------------------------------
  // A declarative reading: where a node may sit to be extracted
  // ---------------------------------------------------------------------

  /** `x` is stored under key `tag` somewhere strictly inside `n`. */
  ghost predicate OccursIn(x: Node, n: Node, tag: string)
    decreases n, 2
  {
    n.Element? && InFields(x, n.fields, tag)
  }

  ghost predicate InFields(x: Node, fs: seq<Field>, tag: string)
    decreases fs, 1
  {
    exists i :: 0 <= i < |fs| && InItems(x, fs[i].items, fs[i].tag, tag)
  }

  /** `x` is one of `items` stored under `key` = `tag`, or lies under `tag` inside one of them. */
  ghost predicate InItems(x: Node, items: seq<Node>, key: string, tag: string)
    decreases items, 0
  {
    exists i :: 0 <= i < |items| && ((key == tag && items[i] == x) || OccursIn(x, items[i], tag))
  }

  lemma {:induction false} ExtractNodeExactly(x: Node, n: Node, tag: string)
    ensures x in ExtractNode(n, tag) <==> OccursIn(x, n, tag)
    decreases n, 2
  {
    if n.Element? {
      ExtractFieldsExactly(x, n.fields, tag);
    }
  }

  lemma {:induction false} ExtractFieldsExactly(x: Node, fs: seq<Field>, tag: string)
    ensures x in ExtractFields(fs, tag) <==> InFields(x, fs, tag)
    decreases fs, 1
  {
    if fs != [] {
      ExtractItemsExactly(x, fs[0].items, fs[0].tag, tag);
      ExtractFieldsExactly(x, fs[1..], tag);
      if InFields(x, fs, tag) {
        var i :| 0 <= i < |fs| && InItems(x, fs[i].items, fs[i].tag, tag);
        if i > 0 {
          assert fs[1..][i - 1] == fs[i];
        }
      }
      if InFields(x, fs[1..], tag) {
        var i :| 0 <= i < |fs[1..]| && InItems(x, fs[1..][i].items, fs[1..][i].tag, tag);
        assert fs[1..][i] == fs[i + 1];
      }
    }
  }

  lemma {:induction false} ExtractItemsExactly(x: Node, items: seq<Node>, key: string, tag: string)
    ensures x in ExtractItems(items, key, tag) <==> InItems(x, items, key, tag)
    decreases items, 0
  {
    if items != [] {
      ExtractNodeExactly(x, items[0], tag);
      ExtractItemsExactly(x, items[1..], key, tag);
      if InItems(x, items, key, tag) {
        var i :| 0 <= i < |items| && ((key == tag && items[i] == x) || OccursIn(x, items[i], tag));
        if i > 0 {
          assert items[1..][i - 1] == items[i];
        }
      }
      if InItems(x, items[1..], key, tag) {
        var i :| 0 <= i < |items[1..]| &&
          ((key == tag && items[1..][i] == x) || OccursIn(x, items[1..][i], tag));
        assert items[1..][i] == items[i + 1];
      }
    }
  }

  /**
   * Extraction finds a node exactly when it is stored under `tag` somewhere
   * in the document, however deep.
   */
  lemma ExtractThemeElementExactly(d: Doc, x: Node, tag: string)
    ensures x in ExtractThemeElement(d, tag) <==> InItems(x, [d.root], RootTag, tag)
  {
    ExtractItemsExactly(x, [d.root], RootTag, tag);
  }

  /** Document order: the matches of consecutive keys come out one after the other. */
  lemma {:induction false} ExtractFieldsConcat(fs: seq<Field>, gs: seq<Field>, tag: string)
    ensures ExtractFields(fs + gs, tag) == ExtractFields(fs, tag) + ExtractFields(gs, tag)
  {
    if fs == [] {
      assert fs + gs == gs;
    } else {
      assert (fs + gs)[0] == fs[0] && (fs + gs)[1..] == fs[1..] + gs;
      ExtractFieldsConcat(fs[1..], gs, tag);
    }
  }

  /** Document order within one array: the matches of consecutive items come out one after the other. */
  lemma {:induction false} ExtractItemsConcat(xs: seq<Node>, ys: seq<Node>, key: string, tag: string)
    ensures ExtractItems(xs + ys, key, tag) == ExtractItems(xs, key, tag) + ExtractItems(ys, key, tag)
  {
    if xs == [] {
      assert xs + ys == ys;
    } else {
      assert (xs + ys)[0] == xs[0] && (xs + ys)[1..] == xs[1..] + ys;
      ExtractItemsConcat(xs[1..], ys, key, tag);
    }
  }

  // ---------------------------------------------------------------------
  // The asserted example: two portlet decorators, in order
  // ---------------------------------------------------------------------

  function Decorator(id: string): Node
  {
    Element(map["id" := id], [Field("portlet-decorator-css-class", [Text(id)])])
  }

  function SampleTheme(): Node
  {
    Element(map["id" := "base-theme", "name" := "Base Theme"], [
      Field("color-scheme", [Element(map["id" := "01"], [])]),
      Field("portlet-decorator", [Decorator("portlet-decorator-1"), Decorator("portlet-decorator-2")])
    ])
  }

  /** The two portlet decorators of a theme come back in document order, and nothing else. */
  lemma ExtractDecoratorsExample()
    ensures ExtractThemeElement(Doc(Element(map[], [Field(ThemeTag, [SampleTheme()])])), "portlet-decorator")
      == [Decorator("portlet-decorator-1"), Decorator("portlet-decorator-2")]
  {
    var tag := "portlet-decorator";
    var d1 := Decorator("portlet-decorator-1");
    var d2 := Decorator("portlet-decorator-2");
    assert ExtractNode(d1, tag) == [] && ExtractNode(d2, tag) == [] by {
      assert [Text("portlet-decorator-1")][1..] == [];
      assert [Text("portlet-decorator-2")][1..] == [];
    }
    var fs := SampleTheme().fields;
    assert fs[1..][1..] == [];
    assert [d1, d2][1..] == [d2] && [d2][1..] == [];
    assert ExtractItems([d1, d2], tag, tag) == [d1, d2];
    assert [Element(map["id" := "01"], [])][1..] == [];
    assert ExtractFields(fs, tag) == [d1, d2];
    assert [SampleTheme()][1..] == [];
    var themeField := Field(ThemeTag, [SampleTheme()]);
    assert [themeField][1..] == [];
    var root := Element(map[], [themeField]);
    assert [root][1..] == [] && [root][0] == root;
    assert RootTag != tag by { assert |RootTag| != |tag|; }
    assert ExtractItems([root], RootTag, tag) == [] + ExtractNode(root, tag) + ExtractItems([], RootTag, tag);
    calc {
      ExtractThemeElement(Doc(root), tag);
      ExtractNode(root, tag);
      ExtractFields([themeField], tag);
      ExtractItems([SampleTheme()], ThemeTag, tag);
      ExtractNode(SampleTheme(), tag);
      [d1, d2];
    }
  }
}
