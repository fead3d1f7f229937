/**
  The names utils_assets.py gives uploaded files: `_slug`, and the file
  name and path `save_upload` builds from the uploaded name, an optional
  name hint and a time stamp. The write of the bytes, and the clock the
  stamp comes from, are left out; the stamp is a parameter.
*/
module Uploads {
  import opened Wrappers
  import opened Text

  /** The characters a slug keeps: `[a-z0-9]`. */
  predicate IsAlnum(c: char) { IsLower(c) || IsDigit(c) }

  /** Every character is a lower-case letter, a digit or '-'. */
  predicate SlugChars(s: string) {
    forall i :: 0 <= i < |s| ==> IsAlnum(s[i]) || s[i] == '-'
  }

  predicate NoDoubleDash(s: string) {
    forall i :: 0 <= i < |s| - 1 ==> !(s[i] == '-' && s[i + 1] == '-')
  }

  /**
    `re.sub(r"[^a-z0-9]+", "-", s)`: every maximal run of other characters
    becomes one '-'; `inRun` says the previous character was already in such
    a run.
  */
  function Dashed(s: string, inRun: bool): (r: string)
    ensures SlugChars(r) && NoDoubleDash(r)
    ensures inRun && r != [] ==> r[0] != '-'
    decreases |s|
  {
    if |s| == 0 then []
    else if IsAlnum(s[0]) then [s[0]] + Dashed(s[1..], false)
    else if inRun then Dashed(s[1..], true)
    else ['-'] + Dashed(s[1..], true)
  }

  /** `re.sub(r"-+", "-", s)`: every run of '-' becomes one; `afterDash` says the previous character was '-'. */
  function Collapsed(s: string, afterDash: bool): string
    decreases |s|
  {
    if |s| == 0 then []
    else if s[0] == '-' && afterDash then Collapsed(s[1..], true)
    else [s[0]] + Collapsed(s[1..], s[0] == '-')
  }

  /** `s.lstrip("-")` */
  function DropLeadingDashes(s: string): (r: string)
    ensures r == [] || r[0] != '-'
    decreases |s|
  {
    if |s| > 0 && s[0] == '-' then DropLeadingDashes(s[1..]) else s
  }

  /** What `lstrip("-")` leaves is an end of the string. */
  lemma {:induction false} DropLeadingSuffix(s: string)
    ensures |DropLeadingDashes(s)| <= |s| && DropLeadingDashes(s) == s[|s| - |DropLeadingDashes(s)|..]
    decreases |s|
  {
    if |s| > 0 && s[0] == '-' {
      DropLeadingSuffix(s[1..]);
    }
  }

  /** `s.rstrip("-")` */
  function DropTrailingDashes(s: string): (r: string)
    ensures r == [] || r[|r| - 1] != '-'
    decreases |s|
  {
    if |s| > 0 && s[|s| - 1] == '-' then DropTrailingDashes(s[..|s| - 1]) else s
  }

  /** What `rstrip("-")` leaves is a start of the string. */
  lemma {:induction false} DropTrailingPrefix(s: string)
    ensures |DropTrailingDashes(s)| <= |s| && DropTrailingDashes(s) == s[..|DropTrailingDashes(s)|]
    decreases |s|
  {
    if |s| > 0 && s[|s| - 1] == '-' {
      DropTrailingPrefix(s[..|s| - 1]);
    }
  }

  /** `s.strip("-")` */
  function StripDashes(s: string): string {
    DropTrailingDashes(DropLeadingDashes(s))
  }

  /** `_slug`: lower-cased and stripped, runs of other characters as one '-', no '-' at either end, "file" if nothing is left. */
  function Slug(s: string): string {
    var t := StripDashes(Collapsed(Dashed(Lower(Trim(s)), false), false));
    if t == [] then "file" else t
  }

  /** What a slug looks like: non-empty, only `[a-z0-9-]`, no '-' at either end and never two in a row. */
  predicate Clean(s: string) {
    s != [] && SlugChars(s) && NoDoubleDash(s) && s[0] != '-' && s[|s| - 1] != '-'
  }

  /** The single-dash runs are already collapsed. */
  lemma {:induction false} CollapsedOfSingle(s: string, afterDash: bool)
    requires NoDoubleDash(s)
    requires afterDash && s != [] ==> s[0] != '-'
    ensures Collapsed(s, afterDash) == s
    decreases |s|
  {
    if |s| > 0 {
      CollapsedOfSingle(s[1..], s[0] == '-');
      assert [s[0]] + s[1..] == s;
    }
  }

  /** A middle part of a string keeps its character set and its single dashes. */
  lemma Slice(s: string, i: nat, j: nat)
    requires i <= j <= |s| && SlugChars(s) && NoDoubleDash(s)
    ensures SlugChars(s[i..j]) && NoDoubleDash(s[i..j])
  {
    assert forall k :: 0 <= k < j - i ==> s[i..j][k] == s[i + k];
  }

  /** Stripping the dashes of a string of slug characters leaves no dash at either end. */
  lemma StripClean(d: string)
    requires SlugChars(d) && NoDoubleDash(d)
    ensures var t := StripDashes(d);
            SlugChars(t) && NoDoubleDash(t) && (t != [] ==> t[0] != '-' && t[|t| - 1] != '-')
  {
    var l := DropLeadingDashes(d);
    DropLeadingSuffix(d);
    Slice(d, |d| - |l|, |d|);
    var t := DropTrailingDashes(l);
    DropTrailingPrefix(l);
    Slice(l, 0, |t|);
    if t != [] {
      assert t[0] == l[0];
    }
  }

  /** Every slug is clean. */
  lemma SlugClean(s: string)
    ensures Clean(Slug(s))
  {
    var d := Dashed(Lower(Trim(s)), false);
    CollapsedOfSingle(d, false);
    StripClean(d);
    var t := StripDashes(d);
    assert Slug(s) == if t == [] then "file" else t;
    if t == [] {
      FileIsClean();
    }
  }

  /** The fallback slug is itself clean. */
  lemma FileIsClean()
    ensures Clean("file")
  {
    var f := "file";
    assert IsAlnum(f[0]) && IsAlnum(f[1]) && IsAlnum(f[2]) && IsAlnum(f[3]);
  }

  /** An input without letters and digits stays without them. */
  lemma {:induction false} DashedNoAlnum(s: string, inRun: bool)
    requires forall i :: 0 <= i < |s| ==> !IsAlnum(s[i])
    ensures forall i :: 0 <= i < |Dashed(s, inRun)| ==> Dashed(s, inRun)[i] == '-'
    decreases |s|
  {
    if |s| > 0 {
      assert forall i :: 0 <= i < |s[1..]| ==> s[1..][i] == s[i + 1];
      DashedNoAlnum(s[1..], true);
    }
  }

  /** Stripping a string of dashes leaves nothing. */
  lemma StripAllDashes(d: string)
    requires forall i :: 0 <= i < |d| ==> d[i] == '-'
    ensures StripDashes(d) == []
  {
    var l := DropLeadingDashes(d);
    DropLeadingSuffix(d);
    assert l == [];
  }

  /** An input with no ASCII letter or digit, in either case, has the slug "file". */
  lemma SlugOfNoAlnum(s: string)
    requires forall i :: 0 <= i < |s| ==> !IsAlnum(LowerChar(s[i]))
    ensures Slug(s) == "file"
  {
    TrimProperties(s);
    var k :| OccursAt(s, Trim(s), k);
    var u := Lower(Trim(s));
    assert forall i :: 0 <= i < |u| ==> u[i] == LowerChar(s[k + i]);
    DashedNoAlnum(u, false);
    var d := Dashed(u, false);
    CollapsedOfSingle(d, false);
    StripAllDashes(d);
  }

  /** A clean string goes through every step of the slug unchanged. */
  lemma {:induction false} DashedOfClean(s: string, inRun: bool)
    requires SlugChars(s) && NoDoubleDash(s)
    requires inRun && s != [] ==> s[0] != '-'
    ensures Dashed(s, inRun) == s
    decreases |s|
  {
    if |s| > 0 {
      Slice(s, 1, |s|);
      DashedOfClean(s[1..], !IsAlnum(s[0]));
      assert [s[0]] + s[1..] == s;
    }
  }

  /** `_slug` is idempotent. */
  lemma SlugIdempotent(s: string)
    ensures Slug(Slug(s)) == Slug(s)
  {
    SlugClean(s);
    SlugOfClean(Slug(s));
  }

  /** A clean string is its own slug. */
  lemma SlugOfClean(t: string)
    requires Clean(t)
    ensures Slug(t) == t
  {
    assert IsAlnum(t[0]) && IsAlnum(t[|t| - 1]);
    TrimOfTrimmed(t);
    assert Trim(t) == t;
    forall i | 0 <= i < |t|
      ensures LowerChar(t[i]) == t[i]
    {
      assert IsAlnum(t[i]) || t[i] == '-';
    }
    assert Lower(t) == t;
    DashedOfClean(t, false);
    CollapsedOfSingle(t, false);
    assert DropLeadingDashes(t) == t;
    assert DropTrailingDashes(t) == t;
  }

  // ----- file names -----

  /** The index of the last occurrence of `c`, the split point of `s.rsplit(c, 1)`. */
  function LastIndex(s: string, c: char): (r: Option<nat>)
    ensures r.Some? ==> r.value < |s| && s[r.value] == c && c !in s[r.value + 1..]
    ensures r.None? <==> c !in s
    decreases |s|
  {
    if |s| == 0 then None
    else if s[|s| - 1] == c then Some(|s| - 1)
    else
      var r := LastIndex(s[..|s| - 1], c);
      assert s == s[..|s| - 1] + [s[|s| - 1]];
      if r.Some? then
        assert s[r.value + 1..] == s[..|s| - 1][r.value + 1..] + [s[|s| - 1]];
        r
      else r
  }

  /** The extension: "." and the lower-cased text after the last ".", or nothing when there is no ".". */
  function Extension(name: string): string {
    match LastIndex(name, '.')
    case None => ""
    case Some(i) => "." + Lower(name[i + 1..])
  }

  /** The name without its extension: the text before the last ".", or the whole name. */
  function Stem(name: string): string {
    match LastIndex(name, '.')
    case None => name
    case Some(i) => name[..i]
  }

  /** `name_hint or <stem>`: a missing or empty hint gives way to the uploaded name's stem. */
  function BaseText(name: string, hint: Option<string>): string {
    if hint.Some? && hint.value != "" then hint.value else Stem(name)
  }

  /** The stored file's name: the slug, "_", the time stamp and the extension. */
  function FileName(name: string, hint: Option<string>, stamp: string): string {
    Slug(BaseText(name, hint)) + "_" + stamp + Extension(name)
  }

  /** Where `save_upload` puts it: under assets/uploads, in the directory of its kind. */
  function UploadPath(kind: string, name: string, hint: Option<string>, stamp: string): string {
    "assets/uploads/" + (if kind == "" then "" else kind + "/") + FileName(name, hint, stamp)
  }

  /** The file goes into the kind's directory under assets/uploads, under its stored name. */
  lemma UploadPathShape(kind: string, name: string, hint: Option<string>, stamp: string)
    ensures var p := UploadPath(kind, name, hint, stamp);
            var f := FileName(name, hint, stamp);
            StartsWith(p, "assets/uploads/") && |f| <= |p| && p[|p| - |f|..] == f
  {
    var p := UploadPath(kind, name, hint, stamp);
    var dir := "assets/uploads/" + (if kind == "" then "" else kind + "/");
    assert p == dir + FileName(name, hint, stamp);
    assert p[..|"assets/uploads/"|] == "assets/uploads/";
  }

  /** The name is split at its last ".": stem, ".", and what follows. */
  lemma StemAndExtension(name: string)
    ensures Extension(name) == "" <==> '.' !in name
    ensures '.' in name ==> exists rest :: name == Stem(name) + "." + rest && '.' !in rest
                                        && Extension(name) == "." + Lower(rest)
    ensures '.' !in name ==> Stem(name) == name
  {
    var r := LastIndex(name, '.');
    if r.Some? {
      var i := r.value;
      assert name == name[..i] + "." + name[i + 1..];
    }
  }

  /** `.lower()` never makes a "." */
  lemma LowerNoDot(s: string)
    requires '.' !in s
    ensures '.' !in Lower(s)
  {
  }

  /** A slug has no "." and no "_" */
  lemma SlugHasNoSeparators(s: string)
    ensures '.' !in Slug(s) && '_' !in Slug(s)
  {
    SlugClean(s);
  }

  /** The last "." of a text is the one before a dot-free tail. */
  lemma LastIndexOfTail(a: string, b: string)
    requires '.' !in b
    ensures LastIndex(a + "." + b, '.') == Some(|a|)
  {
    var s := a + "." + b;
    assert s[|a|] == '.';
    assert s[|a| + 1..] == b;
  }

  /** An extension put after a text without "." is read back as it is. */
  lemma ExtensionAfter(head: string, name: string)
    requires '.' !in head
    ensures Extension(head + Extension(name)) == Extension(name)
  {
    var r := LastIndex(name, '.');
    if r.Some? {
      var rest := name[r.value + 1..];
      var low := Lower(rest);
      LowerNoDot(rest);
      assert head + Extension(name) == head + "." + low;
      LastIndexOfTail(head, low);
      assert (head + "." + low)[|head| + 1..] == low;
      LowerIdempotent(rest);
    } else {
      assert head + Extension(name) == head;
    }
  }

  /** The stored name keeps the uploaded file's extension, when the stamp has no ".". */
  lemma FileNameExtension(name: string, hint: Option<string>, stamp: string)
    requires '.' !in stamp
    ensures Extension(FileName(name, hint, stamp)) == Extension(name)
  {
    SlugHasNoSeparators(BaseText(name, hint));
    var head := Slug(BaseText(name, hint)) + "_" + stamp;
    assert '.' !in head;
    ExtensionAfter(head, name);
  }

  /** The slug is the stored name up to its first "_". */
  lemma FileNameSlug(name: string, hint: Option<string>, stamp: string)
    ensures var f := FileName(name, hint, stamp);
            var k := |Slug(BaseText(name, hint))|;
            k < |f| && f[..k] == Slug(BaseText(name, hint)) && f[k] == '_' && '_' !in f[..k]
  {
    var slug := Slug(BaseText(name, hint));
    SlugHasNoSeparators(BaseText(name, hint));
    var f := FileName(name, hint, stamp);
    assert f == slug + ("_" + stamp + Extension(name));
  }
}
