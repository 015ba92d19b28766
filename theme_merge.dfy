/**
 * `mergeJSON(child, parent)`: merges a child theme's look-and-feel document
 * over its parent's. The attributes of the child's theme element win; every
 * key of the child's theme element is kept in order, its array combined with
 * the parent's array under the same key by that key's rule; keys only the
 * parent has are carried over after them.
 */
module ThemeMerge {
  import opened Wrappers
  import opened Document
  import opened ElementMerge

  /** How the arrays under one key of the theme element are combined. */
  datatype Rule =
    | Replace   // the child's array wins outright
    | ById      // mergeThemeElementById
    | ByValue   // mergeThemeElementByValue

  /** The array stored under a key both theme elements have. */
  function MergeItems(rule: Rule, child: seq<Node>, parent: seq<Node>): (r: seq<Node>)
    ensures rule.Replace? ==> r == child
    ensures rule.ById? ==> Some(r) == MergeThemeElementById(Some(child), Some(parent))
    ensures rule.ByValue? ==> Some(r) == MergeThemeElementByValue(Some(child), Some(parent))
    ensures r[..|child|] == child
  {
    match rule
    case Replace => child
    case ById => MergeThemeElementById(Some(child), Some(parent)).value
    case ByValue => MergeThemeElementByValue(Some(child), Some(parent)).value
  }

  /** The child's keys, in order, each with its array merged against the parent's. */
  function MergeChildFields(cs: seq<Field>, ps: seq<Field>, rules: string -> Rule): (r: seq<Field>)
    ensures |r| == |cs|
    ensures forall i :: 0 <= i < |cs| ==> r[i].tag == cs[i].tag
  {
    if cs == [] then []
    else
      var f := cs[0];
      var items := match Lookup(ps, f.tag)
        case None => f.items
        case Some(p) => MergeItems(rules(f.tag), f.items, p);
      [Field(f.tag, items)] + MergeChildFields(cs[1..], ps, rules)
  }

  /** The parent's fields whose key is not in `tags`, in the parent's order. */
  function ParentOnly(ps: seq<Field>, tags: set<string>): (r: seq<Field>)
    ensures forall f :: f in r <==> f in ps && f.tag !in tags
  {
    if ps == [] then []
    else
      assert ps == [ps[0]] + ps[1..];
      if ps[0].tag in tags then ParentOnly(ps[1..], tags)
      else [ps[0]] + ParentOnly(ps[1..], tags)
  }

  function MergeFields(cs: seq<Field>, ps: seq<Field>, rules: string -> Rule): seq<Field>
  {
    MergeChildFields(cs, ps, rules) + ParentOnly(ps, Tags(cs))
  }

  /** The merged theme element: the child's `$` attributes and the merged keys. */
  function MergeTheme(child: Node, parent: Node, rules: string -> Rule): (r: Node)
    requires child.Element? && parent.Element?
    ensures r.Element? && r.attrs == child.attrs
    ensures Tags(r.fields) == Tags(child.fields) + Tags(parent.fields)
  {
    MergeFieldsTags(child.fields, parent.fields, rules);
    Element(child.attrs, MergeFields(child.fields, parent.fields, rules))
  }

  /**
   * `mergeJSON(child, parent)`: the child document with its theme element
   * replaced by the merged one; `None` when either document has no theme
   * element to merge.
   */
  function MergeJSON(child: Doc, parent: Doc, rules: string -> Rule): (r: Option<Doc>)
    ensures r.Some? <==> ThemeOf(child).Some? && ThemeOf(parent).Some?
    ensures r.Some? ==>
      ThemeOf(r.value) == Some(MergeTheme(ThemeOf(child).value, ThemeOf(parent).value, rules)) &&
      r.value.root.attrs == child.root.attrs &&
      |r.value.root.fields| == |child.root.fields| &&
      (forall k :: 0 <= k < |child.root.fields| && k != IndexOf(child.root.fields, ThemeTag) ==>
        r.value.root.fields[k] == child.root.fields[k]) &&
      ThemeArrayReplaced(child.root.fields, r.value.root.fields,
        MergeTheme(ThemeOf(child).value, ThemeOf(parent).value, rules))
  {
    match (ThemeOf(child), ThemeOf(parent))
    case (Some(c), Some(p)) => Some(WithTheme(child, MergeTheme(c, p, rules)))
    case _ => None
  }

  // ---------------------------------------------------------------------
  // What a lookup of the merged theme element sees
  // ---------------------------------------------------------------------

  /** The value the merge promises under one key, given that key's two arrays. */
  function MergedArray(c: Option<seq<Node>>, p: Option<seq<Node>>, rule: Rule): Option<seq<Node>>
  {
    match (c, p)
    case (Some(x), Some(y)) => Some(MergeItems(rule, x, y))
    case (Some(x), None) => Some(x)
    case (None, _) => p
  }

  lemma {:induction false} LookupChildFields(cs: seq<Field>, ps: seq<Field>, rules: string -> Rule, t: string)
    ensures Lookup(MergeChildFields(cs, ps, rules), t) ==
      if t in Tags(cs) then MergedArray(Lookup(cs, t), Lookup(ps, t), rules(t)) else None
  {
    if cs != [] {
      LookupChildFields(cs[1..], ps, rules, t);
      assert Tags(cs) == {cs[0].tag} + Tags(cs[1..]) by {
        assert cs == [cs[0]] + cs[1..];
      }
    }
  }

  lemma {:induction false} LookupParentOnly(ps: seq<Field>, tags: set<string>, t: string)
    requires t !in tags
    ensures Lookup(ParentOnly(ps, tags), t) == Lookup(ps, t)
  {
    if ps != [] {
      LookupParentOnly(ps[1..], tags, t);
    }
  }

  lemma {:induction false} LookupConcat(fs: seq<Field>, gs: seq<Field>, t: string)
    ensures Lookup(fs + gs, t) == if t in Tags(fs) then Lookup(fs, t) else Lookup(gs, t)
  {
    if fs == [] {
      assert fs + gs == gs;
    } else {
      assert (fs + gs)[0] == fs[0] && (fs + gs)[1..] == fs[1..] + gs;
      assert Tags(fs) == {fs[0].tag} + Tags(fs[1..]) by {
        assert fs == [fs[0]] + fs[1..];
      }
      LookupConcat(fs[1..], gs, t);
    }
  }

  /**
   * For every key: the merged theme element holds the rule's merge of the
   * two arrays when both sides have the key, the child's array when only
   * the child has it, the parent's when only the parent has it, and no
   * array when neither has it.
   */
  lemma MergeFieldsLookup(cs: seq<Field>, ps: seq<Field>, rules: string -> Rule, t: string)
    ensures Lookup(MergeFields(cs, ps, rules), t) == MergedArray(Lookup(cs, t), Lookup(ps, t), rules(t))
  {
    LookupConcat(MergeChildFields(cs, ps, rules), ParentOnly(ps, Tags(cs)), t);
    LookupChildFields(cs, ps, rules, t);
    var tagsOfChildFields := Tags(MergeChildFields(cs, ps, rules));
    assert tagsOfChildFields == Tags(cs) by {
      var r := MergeChildFields(cs, ps, rules);
      forall x | x in Tags(cs) ensures x in Tags(r) {
        var f :| f in cs && f.tag == x;
        var i :| 0 <= i < |cs| && cs[i] == f;
        assert r[i] in r;
      }
      forall x | x in Tags(r) ensures x in Tags(cs) {
        var f :| f in r && f.tag == x;
        var i :| 0 <= i < |r| && r[i] == f;
        assert cs[i] in cs;
      }
    }
    if t !in Tags(cs) {
      LookupParentOnly(ps, Tags(cs), t);
    }
  }

  /** The merged theme element has exactly the keys of the two inputs. */
  lemma MergeFieldsTags(cs: seq<Field>, ps: seq<Field>, rules: string -> Rule)
    ensures Tags(MergeFields(cs, ps, rules)) == Tags(cs) + Tags(ps)
  {
    var m := MergeFields(cs, ps, rules);
    forall t | t in Tags(cs) + Tags(ps) ensures t in Tags(m) {
      MergeFieldsLookup(cs, ps, rules, t);
    }
    forall t | t in Tags(m) ensures t in Tags(cs) + Tags(ps) {
      MergeFieldsLookup(cs, ps, rules, t);
    }
  }

  /** Keys stay unique: a merged theme element is again a valid object. */
  lemma MergeFieldsUniqueTags(cs: seq<Field>, ps: seq<Field>, rules: string -> Rule)
    requires UniqueTags(cs) && UniqueTags(ps)
    ensures UniqueTags(MergeFields(cs, ps, rules))
  {
    var l := MergeChildFields(cs, ps, rules);
    var r := ParentOnly(ps, Tags(cs));
    ParentOnlyUniqueTags(ps, Tags(cs));
    var m := l + r;
    forall i, j | 0 <= i < j < |m| ensures m[i].tag != m[j].tag {
      if j >= |l| && i < |l| {
        assert m[j] in r;
        assert m[i].tag == cs[i].tag;
        assert cs[i] in cs;
      }
    }
  }

  lemma {:induction false} ParentOnlyUniqueTags(ps: seq<Field>, tags: set<string>)
    requires UniqueTags(ps)
    ensures UniqueTags(ParentOnly(ps, tags))
    ensures forall f :: f in ParentOnly(ps, tags) ==> f.tag !in tags
  {
    if ps != [] {
      ParentOnlyUniqueTags(ps[1..], tags);
      var rest := ParentOnly(ps[1..], tags);
      if ps[0].tag !in tags {
        var r := [ps[0]] + rest;
        forall j | 0 < j < |r| ensures r[0].tag != r[j].tag {
          assert r[j] in ps[1..];
          var k :| 0 <= k < |ps[1..]| && ps[1..][k] == r[j];
          assert ps[k + 1] == r[j];
        }
      }
    }
  }

  // ---------------------------------------------------------------------
  // Merging a document with itself
  // ---------------------------------------------------------------------

  lemma MergeItemsSelf(rule: Rule, s: seq<Node>)
    ensures MergeItems(rule, s, s) == s
  {
    match rule
    case Replace =>
    case ById => MergeByIdSelf(Some(s));
    case ByValue => MergeByValueSelf(s);
  }

  lemma {:induction false} MergeChildFieldsSelf(pre: seq<Field>, cs: seq<Field>, rules: string -> Rule)
    requires UniqueTags(pre + cs)
    ensures MergeChildFields(cs, pre + cs, rules) == cs
    decreases |cs|
  {
    if cs != [] {
      var all := pre + cs;
      var f := cs[0];
      assert all[|pre|] == f;
      LookupAfterPrefix(all, |pre|);
      MergeItemsSelf(rules(f.tag), f.items);
      assert pre + cs == (pre + [f]) + cs[1..];
      MergeChildFieldsSelf(pre + [f], cs[1..], rules);
    }
  }

  /** With unique keys, a lookup finds the field at whatever position it is. */
  lemma LookupAfterPrefix(fs: seq<Field>, i: nat)
    requires UniqueTags(fs) && i < |fs|
    ensures Lookup(fs, fs[i].tag) == Some(fs[i].items)
  {
    assert fs[i] in fs;
    var j := IndexOf(fs, fs[i].tag);
    assert j == i;
  }

  lemma {:induction false} ParentOnlyAllTaken(ps: seq<Field>, tags: set<string>)
    requires Tags(ps) <= tags
    ensures ParentOnly(ps, tags) == []
  {
    if ps != [] {
      assert ps[0] in ps;
      assert Tags(ps[1..]) <= Tags(ps) by {
        forall t | t in Tags(ps[1..]) ensures t in Tags(ps) {
          var f :| f in ps[1..] && f.tag == t;
          assert f in ps;
        }
      }
      ParentOnlyAllTaken(ps[1..], tags);
    }
  }

  /** `mergeJSON(x, x)` equals `x` on a theme element whose keys are unique. */
  lemma MergeFieldsSelf(fs: seq<Field>, rules: string -> Rule)
    requires UniqueTags(fs)
    ensures MergeFields(fs, fs, rules) == fs
  {
    assert [] + fs == fs;
    MergeChildFieldsSelf([], fs, rules);
    ParentOnlyAllTaken(fs, Tags(fs));
    assert fs + [] == fs;
  }

  /** Merging a document with itself gives the document back. */
  lemma MergeJSONSelf(x: Doc, rules: string -> Rule)
    requires ThemeOf(x).Some? && UniqueTags(ThemeOf(x).value.fields)
    ensures MergeJSON(x, x, rules) == Some(x)
  {
    var t := ThemeOf(x).value;
    MergeFieldsSelf(t.fields, rules);
    assert MergeTheme(t, t, rules) == t;
    WithOwnTheme(x);
  }
}
