/** Optional values: the model's stand-in for JavaScript's null/undefined. */
module Wrappers {
  datatype Option<+T> = None | Some(value: T)
}

/**
 * The structured form of a look-and-feel descriptor, as the XML-to-JSON
 * conversion produces it: every element is an object whose attributes sit
 * under a reserved `$` key and whose other keys are child tag names, each
 * mapping to an ordered array of children; leaf text elements are plain
 * strings.
 */
module Document {
  import opened Wrappers

  /** An element (`$` attributes plus tagged child arrays) or a leaf string. */
  datatype Node =
    | Element(attrs: map<string, string>, fields: seq<Field>)
    | Text(text: string)

  /** One non-`$` key of an element object: a tag name and its child array. */
  datatype Field = Field(tag: string, items: seq<Node>)

  /** The whole document: the `look-and-feel` root element. */
  datatype Doc = Doc(root: Node)

  const ThemeTag := "theme"

  /** The `$.id` of an element; `None` stands for JavaScript's `undefined`. */
  function IdOf(n: Node): (r: Option<string>)
    ensures r.Some? <==> n.Element? && "id" in n.attrs
    ensures r.Some? ==> r.value == n.attrs["id"]
  {
    if n.Element? && "id" in n.attrs then Some(n.attrs["id"]) else None
  }

  /** The set of `$.id` values carried by an array of elements. */
  function IdsOf(s: seq<Node>): set<Option<string>>
  {
    set x | x in s :: IdOf(x)
  }

  /** The tag names (object keys) of an element. */
  function Tags(fs: seq<Field>): set<string>
  {
    set f | f in fs :: f.tag
  }

  /** Object keys are unique: no two fields of an element share a tag. */
  predicate UniqueTags(fs: seq<Field>)
  {
    forall i, j :: 0 <= i < j < |fs| ==> fs[i].tag != fs[j].tag
  }

  /** The child array stored under `tag`, if the element has that key. */
  function Lookup(fs: seq<Field>, tag: string): (r: Option<seq<Node>>)
    ensures r.Some? <==> tag in Tags(fs)
    ensures r.Some? ==> Field(tag, r.value) in fs
  {
    if fs == [] then None
    else if fs[0].tag == tag then Some(fs[0].items)
    else Lookup(fs[1..], tag)
  }

  /** The index of the first field keyed `tag`. */
  function IndexOf(fs: seq<Field>, tag: string): (i: nat)
    requires tag in Tags(fs)
    ensures i < |fs| && fs[i].tag == tag
    ensures forall k :: 0 <= k < i ==> fs[k].tag != tag
    ensures Lookup(fs, tag) == Some(fs[i].items)
  {
    if fs[0].tag == tag then 0 else 1 + IndexOf(fs[1..], tag)
  }

  /**
   * `look-and-feel.theme.0`: the root theme element, when the root has a
   * `theme` key whose array starts with an element.
   */
  function ThemeOf(d: Doc): (r: Option<Node>)
    ensures r.Some? ==> r.value.Element?
    ensures r.Some? <==>
      d.root.Element? && ThemeTag in Tags(d.root.fields) &&
      var items := Lookup(d.root.fields, ThemeTag).value;
      |items| > 0 && items[0].Element?
    ensures r.Some? ==> r.value == Lookup(d.root.fields, ThemeTag).value[0]
  {
    if d.root.Text? then None
    else match Lookup(d.root.fields, ThemeTag)
      case None => None
      case Some(items) =>
        if |items| > 0 && items[0].Element? then Some(items[0]) else None
  }

  /** The document with `look-and-feel.theme.0` replaced by `t`. */
  function WithTheme(d: Doc, t: Node): (r: Doc)
    requires ThemeOf(d).Some?
    ensures ThemeOf(r) == if t.Element? then Some(t) else None
    ensures r.root.Element? && r.root.attrs == d.root.attrs
    ensures |r.root.fields| == |d.root.fields|
    ensures forall k :: 0 <= k < |d.root.fields| && k != IndexOf(d.root.fields, ThemeTag) ==>
      r.root.fields[k] == d.root.fields[k]
    ensures ThemeArrayReplaced(d.root.fields, r.root.fields, t)
  {
    var fs := d.root.fields;
    var i := IndexOf(fs, ThemeTag);
    var items := fs[i].items;
    var r := Doc(Element(d.root.attrs, fs[i := Field(ThemeTag, items[0 := t])]));
    LookupAfterUpdate(fs, i, Field(ThemeTag, items[0 := t]));
    r
  }

  /**
   * In `after`, the `theme` array of `before` keeps its key, its position and
   * its length; its first item is `t` and every later item is unchanged.
   */
  ghost predicate ThemeArrayReplaced(before: seq<Field>, after: seq<Field>, t: Node)
    requires ThemeTag in Tags(before) && |after| == |before|
  {
    var i := IndexOf(before, ThemeTag);
    var items := before[i].items;
    after[i].tag == ThemeTag &&
    |after[i].items| == |items| > 0 &&
    after[i].items[0] == t &&
    after[i].items[1..] == items[1..]
  }

  /** Replacing the first field keyed `f.tag` by `f` is what a later lookup sees. */
  lemma {:induction false} LookupAfterUpdate(fs: seq<Field>, i: nat, f: Field)
    requires i < |fs| && fs[i].tag == f.tag
    requires forall k :: 0 <= k < i ==> fs[k].tag != f.tag
    ensures Lookup(fs[i := f], f.tag) == Some(f.items)
  {
    if i > 0 {
      assert fs[i := f][1..] == fs[1..][i - 1 := f];
      LookupAfterUpdate(fs[1..], i - 1, f);
    }
  }

  /** Putting back the theme that is already there leaves the document as it was. */
  lemma WithOwnTheme(d: Doc)
    requires ThemeOf(d).Some?
    ensures WithTheme(d, ThemeOf(d).value) == d
  {
    var fs := d.root.fields;
    var i := IndexOf(fs, ThemeTag);
    var items := fs[i].items;
    assert items[0 := items[0]] == items;
    assert fs[i := Field(ThemeTag, items)] == fs;
  }
}
