/**
 * Theme identifiers: the slug form of a theme name, and
 * `correctJSONIdentifiers(json, name)`, which overwrites the root theme
 * element's `$.name` with the name and its `$.id` with the slug, in place.
 */
module Identifiers {
  import opened Wrappers
  import opened Document

  // ---------------------------------------------------------------------
  // Slugs: lower-case words joined by single hyphens
  // ---------------------------------------------------------------------

  predicate IsAlnum(c: char)
  {
    'a' <= c <= 'z' || 'A' <= c <= 'Z' || '0' <= c <= '9'
  }

  /** A character that may appear inside a word of a slug. */
  predicate IsSlugChar(c: char)
  {
    'a' <= c <= 'z' || '0' <= c <= '9'
  }

  function Lower(c: char): (r: char)
    ensures IsAlnum(c) ==> IsSlugChar(r)
    ensures IsSlugChar(c) ==> r == c
  {
    if 'A' <= c <= 'Z' then (c as int - 'A' as int + 'a' as int) as char else c
  }

  function LowerAll(s: string): (r: string)
    ensures |r| == |s|
    ensures forall i :: 0 <= i < |s| ==> r[i] == Lower(s[i])
  {
    if s == [] then [] else [Lower(s[0])] + LowerAll(s[1..])
  }

  /** The length of the leading run of alphanumeric characters of `s`. */
  function WordLength(s: string): (n: nat)
    ensures n <= |s|
    ensures forall i :: 0 <= i < n ==> IsAlnum(s[i])
    ensures n < |s| ==> !IsAlnum(s[n])
  {
    if s == [] || !IsAlnum(s[0]) then 0 else 1 + WordLength(s[1..])
  }

  /** A non-empty run of lower-case letters and digits. */
  predicate IsWord(w: string)
  {
    |w| > 0 && forall i :: 0 <= i < |w| ==> IsSlugChar(w[i])
  }

  /** The maximal alphanumeric runs of `s`, lower-cased, in order. */
  function Words(s: string): (ws: seq<string>)
    ensures forall i :: 0 <= i < |ws| ==> IsWord(ws[i])
    decreases |s|
  {
    if s == [] then []
    else if !IsAlnum(s[0]) then Words(s[1..])
    else
      var n := WordLength(s);
      var w := LowerAll(s[..n]);
      assert IsWord(w) by {
        forall i | 0 <= i < n ensures IsSlugChar(w[i]) {
          assert s[..n][i] == s[i];
        }
      }
      [w] + Words(s[n..])
  }

  function Join(ws: seq<string>): string
  {
    if ws == [] then ""
    else if |ws| == 1 then ws[0]
    else ws[0] + "-" + Join(ws[1..])
  }

  /**
   * The slug of a theme name: lower-cased, every run of characters other
   * than letters and digits turned into one hyphen, with no hyphen at
   * either end.
   */
  function Slug(name: string): string
  {
    Join(Words(name))
  }

  /** The shape of a slug. */
  predicate IsSlug(s: string)
  {
    && (forall i :: 0 <= i < |s| ==> IsSlugChar(s[i]) || s[i] == '-')
    && (|s| > 0 ==> s[0] != '-' && s[|s| - 1] != '-')
    && (forall i :: 0 <= i < |s| - 1 ==> !(s[i] == '-' && s[i + 1] == '-'))
  }

  lemma {:induction false} JoinIsSlug(ws: seq<string>)
    requires forall i :: 0 <= i < |ws| ==> IsWord(ws[i])
    ensures IsSlug(Join(ws))
    ensures ws != [] ==> |Join(ws)| > 0
  {
    if |ws| > 1 {
      JoinIsSlug(ws[1..]);
      var w, j := ws[0], Join(ws[1..]);
      var s := w + "-" + j;
      forall i | 0 <= i < |s| - 1 ensures !(s[i] == '-' && s[i + 1] == '-') {
        if i < |w| {
          assert s[i] == w[i];
        } else if i > |w| {
          assert s[i] == j[i - |w| - 1] && s[i + 1] == j[i - |w|];
        }
      }
      forall i | 0 <= i < |s| ensures IsSlugChar(s[i]) || s[i] == '-' {
        if i < |w| {
          assert s[i] == w[i];
        } else if i > |w| {
          assert s[i] == j[i - |w| - 1];
        }
      }
    }
  }

  /** Every slug has the slug shape. */
  lemma SlugIsSlug(name: string)
    ensures IsSlug(Slug(name))
  {
    JoinIsSlug(Words(name));
  }

  lemma {:induction false} LowerAllOfWord(w: string)
    requires IsWord(w)
    ensures LowerAll(w) == w
  {
  }

  /** A run of letters and digits followed by a separator (or nothing) is read as one word. */
  lemma WordsOfRunThen(w: string, rest: string)
    requires |w| > 0 && forall i :: 0 <= i < |w| ==> IsAlnum(w[i])
    requires rest == [] || !IsAlnum(rest[0])
    ensures Words(w + rest) == [LowerAll(w)] + Words(rest)
  {
    var s := w + rest;
    assert s[0] == w[0];
    var n := WordLength(s);
    assert n == |w| by {
      assert forall i :: 0 <= i < |w| ==> s[i] == w[i];
      if n < |w| {
        assert false;
      }
      if rest != [] {
        assert s[|w|] == rest[0];
      }
      if n > |w| {
        assert false;
      }
    }
    assert s[..n] == w && s[n..] == rest;
  }

  /** A leading separator does not change the words. */
  lemma WordsSkipSeparator(c: char, j: string)
    requires !IsAlnum(c)
    ensures Words([c] + j) == Words(j)
  {
    assert ([c] + j)[0] == c && ([c] + j)[1..] == j;
  }

  lemma {:induction false} WordsOfJoin(ws: seq<string>)
    requires forall i :: 0 <= i < |ws| ==> IsWord(ws[i])
    ensures Words(Join(ws)) == ws
  {
    if |ws| == 1 {
      assert ws[0] + [] == ws[0];
      WordsOfRunThen(ws[0], []);
      LowerAllOfWord(ws[0]);
    } else if |ws| > 1 {
      var w, rest := ws[0], ws[1..];
      assert forall i :: 0 <= i < |rest| ==> IsWord(rest[i]) by {
        forall i | 0 <= i < |rest| ensures IsWord(rest[i]) {
          assert rest[i] == ws[i + 1];
        }
      }
      var j := Join(rest);
      assert Join(ws) == w + ("-" + j);
      assert ("-" + j)[0] == '-';
      calc {
        Words(Join(ws));
        Words(w + ("-" + j));
        { WordsOfRunThen(w, "-" + j); LowerAllOfWord(w); }
        [w] + Words("-" + j);
        { WordsSkipSeparator('-', j); }
        [w] + Words(j);
        { WordsOfJoin(rest); }
        [w] + rest;
        ws;
      }
    }
  }

  /** A slug is its own slug. */
  lemma SlugIdempotent(name: string)
    ensures Slug(Slug(name)) == Slug(name)
  {
    WordsOfJoin(Words(name));
  }

  lemma WordsOfRun(w: string)
    requires |w| > 0 && forall i :: 0 <= i < |w| ==> IsAlnum(w[i])
    ensures Words(w) == [LowerAll(w)]
  {
    assert w + [] == w;
    WordsOfRunThen(w, []);
    assert Words([]) == [];
  }

  /** Two runs of letters and digits separated by a space slug to their lower-case forms joined by a hyphen. */
  lemma SlugOfTwoWords(a: string, b: string)
    requires |a| > 0 && forall i :: 0 <= i < |a| ==> IsAlnum(a[i])
    requires |b| > 0 && forall i :: 0 <= i < |b| ==> IsAlnum(b[i])
    ensures Slug(a + ([' '] + b)) == LowerAll(a) + "-" + LowerAll(b)
  {
    WordsOfTwo(a, b);
    JoinTwo(LowerAll(a), LowerAll(b));
  }

  lemma JoinTwo(x: string, y: string)
    ensures Join([x, y]) == x + "-" + y
  {
    assert [x, y][1..] == [y];
  }

  lemma WordsOfTwo(a: string, b: string)
    requires |a| > 0 && forall i :: 0 <= i < |a| ==> IsAlnum(a[i])
    requires |b| > 0 && forall i :: 0 <= i < |b| ==> IsAlnum(b[i])
    ensures Words(a + ([' '] + b)) == [LowerAll(a), LowerAll(b)]
  {
    WordsOfRunThen(a, [' '] + b);
    WordsSkipSeparator(' ', b);
    WordsOfRun(b);
  }

  /** The slug of "Test Name" is "test-name". */
  lemma SlugTestName()
    ensures Slug("Test Name") == "test-name"
  {
    SlugOfTwoWords("Test", "Name");
    assert "Test" + ([' '] + "Name") == "Test Name";
    assert LowerAll("Test") == "test" && LowerAll("Name") == "name";
    assert "test" + "-" + "name" == "test-name";
  }

  /** The slug of "Base Theme" is "base-theme". */
  lemma SlugBaseTheme()
    ensures Slug("Base Theme") == "base-theme"
  {
    SlugOfTwoWords("Base", "Theme");
    assert "Base" + ([' '] + "Theme") == "Base Theme";
    assert LowerAll("Base") == "base" && LowerAll("Theme") == "theme";
    assert "base" + "-" + "theme" == "base-theme";
  }

  // ---------------------------------------------------------------------
  // correctJSONIdentifiers
  // ---------------------------------------------------------------------

  /** The theme element with `$.name` set to `name` and `$.id` to its slug. */
  function CorrectedTheme(theme: Node, name: string): (r: Node)
    requires theme.Element?
    ensures r.Element? && r.fields == theme.fields
    ensures r.attrs.Keys == theme.attrs.Keys + {"id", "name"}
    ensures r.attrs["name"] == name && r.attrs["id"] == Slug(name)
    ensures forall k :: k in theme.attrs && k != "id" && k != "name" ==> r.attrs[k] == theme.attrs[k]
  {
    Element(theme.attrs["name" := name]["id" := Slug(name)], theme.fields)
  }

  /** A later correction overwrites an earlier one: the last name wins. */
  lemma CorrectLastWins(theme: Node, first: string, second: string)
    requires theme.Element?
    ensures CorrectedTheme(CorrectedTheme(theme, first), second) == CorrectedTheme(theme, second)
  {
    var a := CorrectedTheme(CorrectedTheme(theme, first), second).attrs;
    var b := CorrectedTheme(theme, second).attrs;
    assert a == b;
  }

  /** Correcting with the same name twice is the same as once. */
  lemma CorrectIdempotent(theme: Node, name: string)
    requires theme.Element?
    ensures CorrectedTheme(CorrectedTheme(theme, name), name) == CorrectedTheme(theme, name)
  {
    CorrectLastWins(theme, name, name);
  }

  /**
   * A theme whose `$.name` is already `name` and whose `$.id` is already its
   * slug is left exactly as it is: the correction only writes when the name
   * or the id differs.
   */
  lemma CorrectedThemeWhenCurrent(theme: Node, name: string)
    requires theme.Element?
    ensures CorrectedTheme(theme, name) == theme <==>
      "name" in theme.attrs && theme.attrs["name"] == name &&
      "id" in theme.attrs && theme.attrs["id"] == Slug(name)
  {
    var r := CorrectedTheme(theme, name);
    if "name" in theme.attrs && theme.attrs["name"] == name &&
       "id" in theme.attrs && theme.attrs["id"] == Slug(name) {
      assert r.attrs == theme.attrs;
    }
  }

  /** `look-and-feel.theme.0.$[key]`, when present. */
  function ThemeAttr(d: Doc, key: string): Option<string>
  {
    match ThemeOf(d)
    case None => None
    case Some(t) => if key in t.attrs then Some(t.attrs[key]) else None
  }

  /** A look-and-feel JSON object that callers share and that is corrected in place. */
  class LookAndFeelJSON {
    var doc: Doc

    constructor (d: Doc)
      ensures doc == d
    {
      doc := d;
    }

    /**
     * `correctJSONIdentifiers(json, name)`: sets the root theme element's
     * `$.name` and `$.id`; the rest of the document is left as it was. A
     * document without a theme element is left unchanged and `false` is
     * returned.
     */
    method CorrectJSONIdentifiers(name: string) returns (corrected: bool)
      modifies this
      ensures corrected <==> ThemeOf(old(doc)).Some?
      ensures corrected ==> doc == WithTheme(old(doc), CorrectedTheme(ThemeOf(old(doc)).value, name))
      ensures corrected ==> ThemeAttr(doc, "name") == Some(name) && ThemeAttr(doc, "id") == Some(Slug(name))
      ensures !corrected ==> doc == old(doc)
    {
      match ThemeOf(doc)
      case None =>
        corrected := false;
      case Some(theme) =>
        doc := WithTheme(doc, CorrectedTheme(theme, name));
        corrected := true;
    }
  }

  /**
   * Correcting a document first to "Test Name" and then to "Base Theme"
   * leaves the last name and its slug in the theme element.
   */
  method CorrectTwice(d: Doc) returns (first: (Option<string>, Option<string>), second: (Option<string>, Option<string>))
    requires ThemeOf(d).Some?
    ensures first == (Some("test-name"), Some("Test Name"))
    ensures second == (Some("base-theme"), Some("Base Theme"))
  {
    var json := new LookAndFeelJSON(d);
    var ok := json.CorrectJSONIdentifiers("Test Name");
    SlugTestName();
    first := (ThemeAttr(json.doc, "id"), ThemeAttr(json.doc, "name"));
    ok := json.CorrectJSONIdentifiers("Base Theme");
    SlugBaseTheme();
    second := (ThemeAttr(json.doc, "id"), ThemeAttr(json.doc, "name"));
  }
}
