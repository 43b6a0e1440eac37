/**
 * `create_filename` of document_utils.py: the name of an exported participant list,
 * "Teilnehmer" followed by a date suffix, a type suffix, a group suffix and the extension.
 *
 * Each optional argument is modelled as the text Python would see: `date` as `str(date)`
 * (what the f-string inserts), `type` as `str(type)`, `groups` as the value compared with
 * "1" … "6" (a value that is not one of these strings is any other string here).
 */
module Filenames {
  import opened Wrappers

  const BaseName: string := "Teilnehmer"
  /** The default of the `ext` parameter. */
  const DefaultExt: string := ".xlsx"

  /** `str(type)[0]` on an empty string raises IndexError. */
  datatype FilenameError = EmptyType

  function DateSuffix(date: Option<string>): (r: string)
    ensures r == "" <==> date.None?
    ensures date.Some? ==> r[0] == '_' && r[1..] == date.value
  {
    match date
    case None => ""
    case Some(d) => "_" + d
  }

  /** The type suffix: "_" and the first character, where 'R' is dropped and 'Ü' becomes 'U'. */
  function TypeSuffix(t: string): (r: string)
    requires t != ""
    ensures 1 <= |r| <= 2 && r[0] == '_'
    ensures |r| == 1 <==> t[0] == 'R'
    ensures |r| == 2 ==> r[1] == (if t[0] == 'Ü' then 'U' else t[0])
  {
    var first := t[0];
    "_" + (if first == 'R' then "" else if first == 'Ü' then "U" else [first])
  }

  function GroupsSuffix(groups: Option<string>): (r: string)
    ensures r != "" <==> groups.Some? && IsGroupCode(groups.value)
    ensures r != "" ==> r[0] == '_'
  {
    match groups
    case None => ""
    case Some(g) =>
      if g == "1" then "_A"
      else if g == "2" then "_B"
      else if g == "3" then "_C"
      else if g == "4" then "_A-C"
      else if g == "5" then "_B-C"
      else if g == "6" then "_ohne_Gruppe"
      else ""
  }

  predicate EndsWith(s: string, suffix: string)
  {
    |suffix| <= |s| && s[|s| - |suffix|..] == suffix
  }

  /** The type suffix, or nothing when no type is given. */
  function TypeSuffixOf(typ: Option<string>): string
    requires typ != Some("")
  {
    if typ.None? then "" else TypeSuffix(typ.value)
  }

  /** Everything after the base name: date, type and group suffixes, then the extension. */
  function Suffixes(date: Option<string>, typ: Option<string>, groups: Option<string>, ext: string): string
    requires typ != Some("")
  {
    DateSuffix(date) + (TypeSuffixOf(typ) + (GroupsSuffix(groups) + ext))
  }

  /** Text put in front keeps both the suffix and its own place as a prefix. */
  lemma EndsWithAppend(front: string, s: string, suffix: string)
    requires EndsWith(s, suffix) || s == suffix
    ensures front <= front + s && EndsWith(front + s, suffix)
  {
    assert (front + s)[|front + s| - |suffix|..] == s[|s| - |suffix|..];
  }

  function CreateFilename(date: Option<string>, typ: Option<string>, groups: Option<string>, ext: string)
    : (r: Result<string, FilenameError>)
    ensures r.Err? <==> typ == Some("")
    ensures r.Ok? ==> BaseName <= r.value && EndsWith(r.value, ext)
  {
    if typ == Some("") then Err(EmptyType)
    else
      var rest := GroupsSuffix(groups) + ext;
      EndsWithAppend("", rest, ext);
      EndsWithAppend(TypeSuffixOf(typ), rest, ext);
      EndsWithAppend(DateSuffix(date), TypeSuffixOf(typ) + rest, ext);
      EndsWithAppend(BaseName, Suffixes(date, typ, groups, ext), ext);
      Ok(BaseName + Suffixes(date, typ, groups, ext))
  }

  lemma Associative(a: string, b: string, c: string)
    ensures a + b + c == a + (b + c)
  {
  }

  /** With every optional argument absent the name is the base name and the extension. */
  lemma NoArgumentsName(ext: string)
    ensures CreateFilename(None, None, None, ext) == Ok(BaseName + ext)
    ensures CreateFilename(None, None, None, DefaultExt) == Ok("Teilnehmer.xlsx")
  {
    assert Suffixes(None, None, None, ext) == ext;
    assert BaseName + DefaultExt == "Teilnehmer.xlsx";
  }

  /**
   * A date contributes exactly "_" + date, right after the base name: the name with a date
   * is the name without it with "_" + date spliced in after "Teilnehmer".
   */
  lemma DateSplicedAfterBase(d: string, typ: Option<string>, groups: Option<string>, ext: string)
    ensures CreateFilename(Some(d), typ, groups, ext).Ok? <==> CreateFilename(None, typ, groups, ext).Ok?
    ensures CreateFilename(Some(d), typ, groups, ext).Ok? ==>
      CreateFilename(Some(d), typ, groups, ext).value
        == BaseName + "_" + d + CreateFilename(None, typ, groups, ext).value[|BaseName|..]
  {
    if typ != Some("") {
      var rest := TypeSuffixOf(typ) + (GroupsSuffix(groups) + ext);
      assert Suffixes(None, typ, groups, ext) == rest;
      assert Suffixes(Some(d), typ, groups, ext) == "_" + d + rest;
      var without := BaseName + rest;
      assert without[|BaseName|..] == rest;
      Associative(BaseName, "_" + d, rest);
      Associative(BaseName, "_", d);
    }
  }

  /**
   * The type suffix as seen in the whole name: "R…" gives "_" (not the empty string),
   * "Ü…" gives "_U", any other first character c gives "_" + c; later characters are ignored.
   */
  lemma TypeSuffixInName(typ: string, ext: string)
    requires typ != ""
    ensures typ[0] == 'R' ==> CreateFilename(None, Some(typ), None, ext) == Ok(BaseName + "_" + ext)
    ensures typ[0] == 'Ü' ==> CreateFilename(None, Some(typ), None, ext) == Ok(BaseName + "_U" + ext)
    ensures typ[0] != 'R' && typ[0] != 'Ü' ==>
      CreateFilename(None, Some(typ), None, ext) == Ok(BaseName + ['_', typ[0]] + ext)
    ensures CreateFilename(None, Some(typ), None, ext) == CreateFilename(None, Some(typ[..1]), None, ext)
  {
    var t := TypeSuffix(typ);
    assert typ[..1][0] == typ[0];
    assert Suffixes(None, Some(typ), None, ext) == t + ext;
    Associative(BaseName, t, ext);
    if typ[0] == 'R' {
      assert t == "_";
    } else if typ[0] == 'Ü' {
      assert t == "_U";
    } else {
      assert t == ['_', typ[0]];
    }
  }

  /** A type starting with 'R' is not the same as no type: the name keeps a lone "_". */
  lemma RegularTypeStillMarked(date: Option<string>, typ: string, groups: Option<string>, ext: string)
    requires typ != "" && typ[0] == 'R'
    ensures CreateFilename(date, Some(typ), groups, ext) != CreateFilename(date, None, groups, ext)
  {
    assert |TypeSuffix(typ)| == 1;
    assert |Suffixes(date, Some(typ), groups, ext)| == |Suffixes(date, None, groups, ext)| + 1;
  }

  /** Types starting with 'Ü' and with 'U' produce the same name. */
  lemma UmlautTypeCollides(date: Option<string>, t1: string, t2: string, groups: Option<string>, ext: string)
    requires t1 != "" && t1[0] == 'Ü'
    requires t2 != "" && t2[0] == 'U'
    ensures CreateFilename(date, Some(t1), groups, ext) == CreateFilename(date, Some(t2), groups, ext)
  {
    assert TypeSuffix(t1) == "_U" == TypeSuffix(t2);
  }

  predicate IsGroupCode(g: string)
  {
    g == "1" || g == "2" || g == "3" || g == "4" || g == "5" || g == "6"
  }

  /** The group codes "1" … "6" name the groups A, B, C, A-C, B-C and "without group". */
  lemma GroupCodes(ext: string)
    ensures CreateFilename(None, None, Some("1"), ext) == Ok(BaseName + "_A" + ext)
    ensures CreateFilename(None, None, Some("2"), ext) == Ok(BaseName + "_B" + ext)
    ensures CreateFilename(None, None, Some("3"), ext) == Ok(BaseName + "_C" + ext)
    ensures CreateFilename(None, None, Some("4"), ext) == Ok(BaseName + "_A-C" + ext)
    ensures CreateFilename(None, None, Some("5"), ext) == Ok(BaseName + "_B-C" + ext)
    ensures CreateFilename(None, None, Some("6"), ext) == Ok(BaseName + "_ohne_Gruppe" + ext)
  {
    GroupInName("1", "_A", ext);
    GroupInName("2", "_B", ext);
    GroupInName("3", "_C", ext);
    GroupInName("4", "_A-C", ext);
    GroupInName("5", "_B-C", ext);
    GroupInName("6", "_ohne_Gruppe", ext);
  }

  lemma GroupInName(g: string, suffix: string, ext: string)
    requires GroupsSuffix(Some(g)) == suffix
    ensures CreateFilename(None, None, Some(g), ext) == Ok(BaseName + suffix + ext)
  {
    assert Suffixes(None, None, Some(g), ext) == suffix + ext;
    Associative(BaseName, suffix, ext);
  }

  /** Any value other than the six codes leaves no trace: the name is the one without groups. */
  lemma OtherGroupsIgnored(date: Option<string>, typ: Option<string>, g: string, ext: string)
    requires !IsGroupCode(g)
    ensures CreateFilename(date, typ, Some(g), ext) == CreateFilename(date, typ, None, ext)
  {
  }

  /** Distinct group codes give distinct names, whatever the other arguments. */
  lemma GroupCodesDistinguished(date: Option<string>, typ: Option<string>, g1: string, g2: string, ext: string)
    requires IsGroupCode(g1) && IsGroupCode(g2) && g1 != g2
    requires typ != Some("")
    ensures CreateFilename(date, typ, Some(g1), ext) != CreateFilename(date, typ, Some(g2), ext)
  {
    var prefix := BaseName + DateSuffix(date) + TypeSuffixOf(typ);
    var s1, s2 := GroupsSuffix(Some(g1)), GroupsSuffix(Some(g2));
    var n1 := CreateFilename(date, typ, Some(g1), ext).value;
    var n2 := CreateFilename(date, typ, Some(g2), ext).value;
    SuffixesSplit(date, typ, Some(g1), ext);
    SuffixesSplit(date, typ, Some(g2), ext);
    assert n1 == prefix + s1 + ext && n2 == prefix + s2 + ext;
    if |s1| == |s2| {
      assert n1[|prefix|..|prefix| + |s1|] == s1;
      assert n2[|prefix|..|prefix| + |s2|] == s2;
    }
  }

  /** The name, split at the group suffix. */
  lemma SuffixesSplit(date: Option<string>, typ: Option<string>, groups: Option<string>, ext: string)
    requires typ != Some("")
    ensures BaseName + Suffixes(date, typ, groups, ext)
      == BaseName + DateSuffix(date) + TypeSuffixOf(typ) + GroupsSuffix(groups) + ext
  {
    var a, b, c := DateSuffix(date), TypeSuffixOf(typ), GroupsSuffix(groups);
    Associative(c, ext, "");
    Associative(b, c, ext);
    Associative(a, b + c, ext);
    Associative(a, b, c);
    Associative(BaseName, a + b + c, ext);
    Associative(BaseName, a + b, c);
    Associative(BaseName, a, b);
  }
}
