/** The `.vscode/settings.json` document: a `files.exclude` object hiding
    build products, binary assets and editor folders, where the entry for
    `.meta` files is switched by the meta-files setting. The source keeps the
    document as a template whose entries are all `true` and substitutes the
    meta entry textually; this module proves that the substitution yields the
    document with only that entry changed. */
module VSCodeSettings {
  import Text

  /** The excluded glob patterns, in the order the document lists them, grouped
      by what they hide. */
  const ExcludePatterns: seq<string> :=
    VersionControlPatterns + LegacyProjectPatterns + BinaryPatterns + AudioPatterns
      + ImagePatterns + ModelPatterns + UnityAssetPatterns + FolderPatterns

  const VersionControlPatterns: seq<string> := ["**/.DS_Store", "**/.git", "**/.gitignore", "**/.gitmodules"]
  const LegacyProjectPatterns: seq<string> :=
    ["**/*.booproj", "**/*.pidb", "**/*.suo", "**/*.user", "**/*.userprefs", "**/*.unityproj"]
  const BinaryPatterns: seq<string> := ["**/*.dll", "**/*.exe", "**/*.pdf"]
  const AudioPatterns: seq<string> := ["**/*.mid", "**/*.midi", "**/*.wav"]
  const ImagePatterns: seq<string> :=
    ["**/*.gif", "**/*.ico", "**/*.jpg", "**/*.jpeg", "**/*.png", "**/*.psd", "**/*.tga", "**/*.tif", "**/*.tiff"]
  const ModelPatterns: seq<string> :=
    ["**/*.3ds", "**/*.3DS", "**/*.fbx", "**/*.FBX", "**/*.lxo", "**/*.LXO", "**/*.ma", "**/*.MA", "**/*.obj", "**/*.OBJ"]
  const UnityAssetPatterns: seq<string> :=
    ["**/*.asset", "**/*.cubemap", "**/*.flare", "**/*.mat", "**/*.meta", "**/*.prefab", "**/*.unity"]
  const FolderPatterns: seq<string> :=
    ["build/", "Build/", "Library/", "library/", "obj/", "Obj/", "ProjectSettings/", "temp/", "Temp/"]

  const MetaPattern := "**/*.meta"

  /** The text searched for in the template, and the start of its replacement. */
  const MetaEntryTrue := "\"**/*.meta\":true"
  const MetaKey := "\"**/*.meta\":"

  const Header := "{\n    \"files.exclude\":\n    {\n"
  const Indent := "        "
  const Separator := ",\n"
  const Footer := "\n    }\n}"

  /** One `"pattern":value` member of the `files.exclude` object. */
  function Member(pattern: string, value: string): string {
    "\"" + pattern + "\":" + value
  }

  /** A member on its own indented line. */
  function Entry(pattern: string, value: string): string {
    Indent + Member(pattern, value)
  }

  /** The value of `pattern`'s entry when `key` maps to `value` and every other
      pattern to `true`. */
  function ValueOf(pattern: string, key: string, value: string): string {
    if pattern == key then value else "true"
  }

  /** The members, comma-separated, one per line. */
  function Entries(patterns: seq<string>, key: string, value: string): string
    decreases |patterns|
  {
    if patterns == [] then ""
    else if |patterns| == 1 then Entry(patterns[0], ValueOf(patterns[0], key, value))
    else Entry(patterns[0], ValueOf(patterns[0], key, value)) + Separator + Entries(patterns[1..], key, value)
  }

  /** The settings document whose meta entry has the value `metaValue`. */
  function Document(metaValue: string): string {
    Header + Entries(ExcludePatterns, MetaPattern, metaValue) + Footer
  }

  /** The template as the source stores it: every pattern excluded. */
  function Template(): string {
    Document("true")
  }

  /** `WriteVSCodeSettings`' content: the template with the meta entry's value
      replaced by the negated meta-files setting in lower case. */
  function SettingsContent(metaFiles: bool): string {
    Text.Replace(Template(), MetaEntryTrue, MetaKey + Text.ToLower(Text.BoolToString(!metaFiles)))
  }

  /** A key that is a plain JSON string body starting with a glob star. */
  predicate GlobKey(key: string) {
    |key| >= 1 && key[0] == '*' && '"' !in key
  }

  /** A position where `s` and `needle` differ rules out an occurrence at `i`. */
  lemma Mismatch(s: string, i: int, needle: string, j: int)
    requires 0 <= j < |needle|
    requires 0 <= i && i + j < |s| ==> s[i + j] != needle[j]
    ensures !Text.OccursAt(s, i, needle)
  {
    if 0 <= i && i + |needle| <= |s| {
      assert s[i..i + |needle|][j] == s[i + j];
    }
  }

  /** Text without `*`, not ending in a quote, holds no start of a glob key's member. */
  lemma StarFreeSkip(a: string, b: string, key: string)
    requires GlobKey(key)
    requires '*' !in a
    requires a != [] ==> a[|a| - 1] != '"'
    ensures forall i :: 0 <= i < |a| ==> !Text.OccursAt(a + b, i, Member(key, "true"))
  {
    var n := Member(key, "true");
    assert n[0] == '"' && n[1] == '*';
    forall i | 0 <= i < |a|
      ensures !Text.OccursAt(a + b, i, n)
    {
      if i + 1 < |a| {
        assert (a + b)[i + 1] == a[i + 1];
        Mismatch(a + b, i, n, 1);
      } else {
        assert (a + b)[i] == a[i];
        Mismatch(a + b, i, n, 0);
      }
    }
  }

  /** The member of another key holds no start of `key`'s member. */
  lemma OtherKeySkip(p: string, key: string, b: string)
    requires GlobKey(key)
    requires '"' !in p && p != key
    ensures
      var q := Member(p, "true");
      forall i :: 0 <= i < |q| ==> !Text.OccursAt(q + b, i, Member(key, "true"))
  {
    var q := Member(p, "true");
    var n := Member(key, "true");
    var t := "\":true";
    assert q == "\"" + p + t && n == "\"" + key + t;
    var s := q + b;
    forall i | 0 <= i < |q|
      ensures !Text.OccursAt(s, i, n)
    {
      if i == 0 {
        if |p| < |key| {
          assert s[1 + |p|] == '"' && n[1 + |p|] == key[|p|];
          Mismatch(s, 0, n, 1 + |p|);
        } else if |p| > |key| {
          assert s[1 + |key|] == p[|key|] && n[1 + |key|] == '"';
          Mismatch(s, 0, n, 1 + |key|);
        } else {
          var k :| 0 <= k < |p| && p[k] != key[k];
          assert s[1 + k] == p[k] && n[1 + k] == key[k];
          Mismatch(s, 0, n, 1 + k);
        }
      } else if i <= |p| {
        assert s[i] == p[i - 1] && n[0] == '"';
        Mismatch(s, i, n, 0);
      } else if i == |p| + 1 {
        assert s[i + 1] == ':' && n[1] == '*';
        Mismatch(s, i, n, 1);
      } else {
        assert s[i] == t[i - 1 - |p|] && n[0] == '"';
        Mismatch(s, i, n, 0);
      }
    }
  }

  /** `Replace` passes text without `*`, not ending in a quote, through unchanged. */
  lemma ReplaceAfterStarFree(a: string, t: string, key: string, value: string)
    requires GlobKey(key)
    requires '*' !in a
    requires a != [] ==> a[|a| - 1] != '"'
    ensures Text.Replace(a + t, Member(key, "true"), Member(key, value))
      == a + Text.Replace(t, Member(key, "true"), Member(key, value))
  {
    StarFreeSkip(a, t, key);
    Text.ReplaceSkip(a, t, Member(key, "true"), Member(key, value));
  }

  /** Replacing within one entry: `key`'s entry takes `value`, every other
      entry passes through. */
  lemma ReplaceEntry(p: string, key: string, value: string, b: string)
    requires GlobKey(key)
    requires '"' !in p
    ensures
      Text.Replace(Entry(p, "true") + b, Member(key, "true"), Member(key, value))
        == Entry(p, if p == key then value else "true") + Text.Replace(b, Member(key, "true"), Member(key, value))
  {
    var n := Member(key, "true");
    var r := Member(key, value);
    var q := Member(p, "true");
    var rb := Text.Replace(b, n, r);
    Text.Associative(Indent, q, b);
    ReplaceAfterStarFree(Indent, q + b, key, value);
    if p == key {
      Text.ReplaceHit(b, n, r);
      Text.Associative(Indent, r, rb);
    } else {
      OtherKeySkip(p, key, b);
      Text.ReplaceSkip(q, b, n, r);
      Text.Associative(Indent, q, rb);
    }
  }

  /** Replacing through an entry and the separator after it. */
  lemma ReplaceSeparatedEntry(p: string, key: string, value: string, t: string)
    requires GlobKey(key)
    requires '"' !in p
    ensures
      Text.Replace(Entry(p, "true") + Separator + t, Member(key, "true"), Member(key, value))
        == Entry(p, ValueOf(p, key, value)) + Separator + Text.Replace(t, Member(key, "true"), Member(key, value))
  {
    var n := Member(key, "true");
    var r := Member(key, value);
    Text.Associative(Entry(p, "true"), Separator, t);
    ReplaceEntry(p, key, value, Separator + t);
    ReplaceAfterStarFree(Separator, t, key, value);
    Text.Associative(Entry(p, ValueOf(p, key, value)), Separator, Text.Replace(t, n, r));
  }

  /** Replacing across the entries changes `key`'s entry and nothing else. */
  lemma {:induction false} ReplaceEntries(patterns: seq<string>, key: string, value: string, b: string)
    requires GlobKey(key)
    requires Unquoted(patterns)
    ensures
      Text.Replace(Entries(patterns, key, "true") + b, Member(key, "true"), Member(key, value))
        == Entries(patterns, key, value) + Text.Replace(b, Member(key, "true"), Member(key, value))
    decreases |patterns|
  {
    if patterns == [] {
      assert Entries(patterns, key, "true") + b == b;
    } else {
      var p := patterns[0];
      var e := Entry(p, ValueOf(p, key, "true"));
      assert e == Entry(p, "true");
      if |patterns| == 1 {
        ReplaceEntry(p, key, value, b);
      } else {
        var rest := patterns[1..];
        var t := Entries(rest, key, "true") + b;
        var es := Entries(rest, key, value);
        var rb := Text.Replace(b, Member(key, "true"), Member(key, value));
        assert Entries(patterns, key, "true") + b == e + Separator + t;
        assert Entries(patterns, key, value) == Entry(p, ValueOf(p, key, value)) + Separator + es;
        ReplaceSeparatedEntry(p, key, value, t);
        assert forall q :: q in rest ==> q in patterns;
        ReplaceEntries(rest, key, value, b);
        Text.Associative(Entry(p, ValueOf(p, key, value)) + Separator, es, rb);
      }
    }
  }

  /** Every pattern of `patterns` is a plain JSON string body. */
  predicate Unquoted(patterns: seq<string>) {
    forall p :: p in patterns ==> '"' !in p
  }

  lemma UnquotedConcat(a: seq<string>, b: seq<string>)
    requires Unquoted(a) && Unquoted(b)
    ensures Unquoted(a + b)
  {
  }

  lemma VersionControlUnquoted() ensures Unquoted(VersionControlPatterns) {}
  lemma LegacyProjectUnquoted() ensures Unquoted(LegacyProjectPatterns) {}
  lemma BinaryUnquoted() ensures Unquoted(BinaryPatterns) {}
  lemma AudioUnquoted() ensures Unquoted(AudioPatterns) {}
  lemma ImageUnquoted() ensures Unquoted(ImagePatterns) {}
  lemma ModelUnquoted() ensures Unquoted(ModelPatterns) {}
  lemma UnityAssetUnquoted() ensures Unquoted(UnityAssetPatterns) {}
  lemma FolderUnquoted() ensures Unquoted(FolderPatterns) {}

  /** No pattern of the document contains a quote. */
  lemma PatternsUnquoted()
    ensures Unquoted(ExcludePatterns)
  {
    VersionControlUnquoted();
    LegacyProjectUnquoted();
    BinaryUnquoted();
    AudioUnquoted();
    ImageUnquoted();
    ModelUnquoted();
    UnityAssetUnquoted();
    FolderUnquoted();
    var ps := VersionControlPatterns;
    UnquotedConcat(ps, LegacyProjectPatterns);
    ps := ps + LegacyProjectPatterns;
    UnquotedConcat(ps, BinaryPatterns);
    ps := ps + BinaryPatterns;
    UnquotedConcat(ps, AudioPatterns);
    ps := ps + AudioPatterns;
    UnquotedConcat(ps, ImagePatterns);
    ps := ps + ImagePatterns;
    UnquotedConcat(ps, ModelPatterns);
    ps := ps + ModelPatterns;
    UnquotedConcat(ps, UnityAssetPatterns);
    ps := ps + UnityAssetPatterns;
    UnquotedConcat(ps, FolderPatterns);
  }

  /** The lower-cased negation of the setting, as the replacement spells it. */
  lemma NegatedSettingText(metaFiles: bool)
    ensures Text.ToLower(Text.BoolToString(!metaFiles)) == MetaValue(metaFiles)
  {
  }

  /** The searched text and its replacement are the meta pattern's member. */
  lemma MetaMemberText(value: string)
    ensures Member(MetaPattern, "true") == MetaEntryTrue
    ensures Member(MetaPattern, value) == MetaKey + value
  {
  }

  /** The frame of the document holds no glob star. */
  lemma FrameStarFree()
    ensures GlobKey(MetaPattern)
    ensures '*' !in Header && Header[|Header| - 1] != '"'
    ensures '*' !in Footer && Footer[|Footer| - 1] != '"'
  {
  }

  /** The textual substitution yields the settings document whose only
      difference from the template is the meta entry, which is `false` when
      meta files are shown and `true` when they are hidden. */
  lemma SettingsContentIsDocument(metaFiles: bool)
    ensures SettingsContent(metaFiles) == Document(MetaValue(metaFiles))
  {
    var v := MetaValue(metaFiles);
    NegatedSettingText(metaFiles);
    MetaMemberText(v);
    FrameStarFree();
    var es := Entries(ExcludePatterns, MetaPattern, "true");
    Text.Associative(Header, es, Footer);
    ReplaceAfterStarFree(Header, es + Footer, MetaPattern, v);
    PatternsUnquoted();
    ReplaceEntries(ExcludePatterns, MetaPattern, v, Footer);
    assert Footer + "" == Footer;
    ReplaceAfterStarFree(Footer, "", MetaPattern, v);
    Text.Associative(Header, Entries(ExcludePatterns, MetaPattern, v), Footer);
  }

  /** An occurrence inside the middle part is an occurrence in the whole. */
  lemma OccursInMiddle(a: string, b: string, c: string, i: int, needle: string)
    requires Text.OccursAt(b, i, needle)
    ensures Text.OccursAt(a + b + c, |a| + i, needle)
  {
    assert (a + b + c)[|a| + i..|a| + i + |needle|] == b[i..i + |needle|];
  }

  /** `key`'s member, with the value given, occurs in entries that list `key`. */
  lemma {:induction false} EntriesShowKey(patterns: seq<string>, key: string, value: string)
    requires key in patterns
    ensures exists i :: Text.OccursAt(Entries(patterns, key, value), i, Member(key, value))
    decreases |patterns|
  {
    var p := patterns[0];
    var m := Member(key, value);
    if p == key {
      var t := if |patterns| == 1 then "" else Separator + Entries(patterns[1..], key, value);
      assert Entries(patterns, key, value) == Indent + m + t;
      assert Text.OccursAt(m, 0, m);
      OccursInMiddle(Indent, m, t, 0, m);
    } else {
      var rest := Entries(patterns[1..], key, value);
      assert key in patterns[1..];
      EntriesShowKey(patterns[1..], key, value);
      var i :| Text.OccursAt(rest, i, m);
      var pre := Entry(p, ValueOf(p, key, value)) + Separator;
      assert Entries(patterns, key, value) == pre + rest + "";
      OccursInMiddle(pre, rest, "", i, m);
    }
  }

  /** The value the written settings give the meta entry: meta files shown
      means they are not excluded, and hidden means they are. */
  function MetaValue(metaFiles: bool): string {
    if metaFiles then "false" else "true"
  }

  /** The written settings carry the meta entry with the negated setting. */
  lemma SettingsShowMetaChoice(metaFiles: bool)
    ensures exists i :: Text.OccursAt(SettingsContent(metaFiles), i, MetaKey + MetaValue(metaFiles))
  {
    var v := MetaValue(metaFiles);
    var m := Member(MetaPattern, v);
    SettingsContentIsDocument(metaFiles);
    MetaMemberText(v);
    assert MetaPattern in UnityAssetPatterns;
    assert MetaPattern in ExcludePatterns;
    EntriesShowKey(ExcludePatterns, MetaPattern, v);
    var es := Entries(ExcludePatterns, MetaPattern, v);
    var i :| Text.OccursAt(es, i, m);
    OccursInMiddle(Header, es, Footer, i, m);
  }

  /** Hiding meta files leaves the template exactly as stored. */
  lemma HiddenMetaKeepsTemplate()
    ensures SettingsContent(false) == Template()
  {
    SettingsContentIsDocument(false);
  }
}
