/** Which runner labels a job can land on (`xtask/src/runners.rs`: `is_github_hosted_label`,
    `matrix_candidates`, `classify_runs_on`). YAML arrives as a value; decoding it is not modelled. */
module Routing {
  import opened Options
  import opened Text

  datatype Yaml = YStr(s: string) | YSeq(items: seq<Yaml>) | YMap(entries: seq<(Yaml, Yaml)>) | YOther

  /** `map_get`: the first entry whose key is the string `key`. */
  function MapGet(v: Yaml, key: string): Option<Yaml> {
    if v.YMap? then Lookup(v.entries, key) else None
  }

  function Lookup(entries: seq<(Yaml, Yaml)>, key: string): Option<Yaml> {
    if entries == [] then None
    else if entries[0].0 == YStr(key) then Some(entries[0].1)
    else Lookup(entries[1..], key)
  }

  /** The entry a map is read at: the first with that key. */
  ghost predicate FirstEntry(entries: seq<(Yaml, Yaml)>, key: string, i: int) {
    0 <= i < |entries| && entries[i].0 == YStr(key) && forall k | 0 <= k < i :: entries[k].0 != YStr(key)
  }

  lemma {:induction false} LookupMeans(entries: seq<(Yaml, Yaml)>, key: string)
    ensures forall i | FirstEntry(entries, key, i) :: Lookup(entries, key) == Some(entries[i].1)
    ensures (forall i | 0 <= i < |entries| :: entries[i].0 != YStr(key)) <==> Lookup(entries, key).None?
  {
    if entries != [] {
      LookupMeans(entries[1..], key);
      assert forall i | 0 < i < |entries| :: entries[i] == entries[1..][i - 1];
      if entries[0].0 != YStr(key) {
        forall i | FirstEntry(entries, key, i) ensures Lookup(entries, key) == Some(entries[i].1) {
          assert FirstEntry(entries[1..], key, i - 1);
        }
      }
    }
  }

  /** A value is read from a map, at the first entry with that key, and from nothing else. */
  lemma MapGetMeans(v: Yaml, key: string)
    ensures v.YMap? ==> forall i | FirstEntry(v.entries, key, i) :: MapGet(v, key) == Some(v.entries[i].1)
    ensures MapGet(v, key).None? <==> v.YMap? ==> forall i | 0 <= i < |v.entries| :: v.entries[i].0 != YStr(key)
  {
    if v.YMap? { LookupMeans(v.entries, key); }
  }

  // ---- hosted labels ---------------------------------------------------------------------

  predicate IsSuffixChar(c: char) {
    IsLower(c) || IsDigit(c) || c == '.' || c == '-'
  }

  function FirstDash(s: string): (i: nat)
    ensures i <= |s|
    ensures forall k | 0 <= k < i :: s[k] != '-'
    ensures i < |s| ==> s[i] == '-'
  {
    if s == [] || s[0] == '-' then 0 else 1 + FirstDash(s[1..])
  }

  predicate IsHostedLabel(tag: string) {
    var i := FirstDash(tag);
    && i < |tag|
    && tag[..i] in {"ubuntu", "windows", "macos"}
    && i + 1 < |tag|
    && forall k | i < k < |tag| :: IsSuffixChar(tag[k])
  }

  /** An image family, a dash, and a version or suffix. */
  ghost predicate IsImage(tag: string, family: string, rest: string) {
    && family in {"ubuntu", "windows", "macos"}
    && rest != "" && (forall c | c in rest :: 'a' <= c <= 'z' || '0' <= c <= '9' || c == '.' || c == '-')
    && tag == family + "-" + rest
  }

  /** What the whitelist is meant to hold. */
  ghost predicate HostedImage(tag: string) { exists family, rest :: IsImage(tag, family, rest) }

  lemma HostedMeans(tag: string)
    ensures IsHostedLabel(tag) <==> HostedImage(tag)
  {
    if IsHostedLabel(tag) { HostedIsImage(tag, FirstDash(tag)); }
    if HostedImage(tag) {
      var family, rest :| IsImage(tag, family, rest);
      ImageIsHosted(tag, family, rest);
    }
  }

  lemma HostedIsImage(tag: string, i: nat)
    requires IsHostedLabel(tag) && i == FirstDash(tag)
    ensures HostedImage(tag)
  {
    var family, rest := tag[..i], tag[i + 1..];
    assert tag == family + "-" + rest;
    forall c | c in rest ensures IsSuffixChar(c) {
      var k :| 0 <= k < |rest| && rest[k] == c;
      assert tag[i + 1 + k] == c;
    }
    assert IsImage(tag, family, rest);
  }

  lemma NoDashIn(family: string)
    requires family in {"ubuntu", "windows", "macos"}
    ensures forall k | 0 <= k < |family| :: family[k] != '-'
  {
  }

  lemma DashAfter(tag: string, family: string, rest: string)
    requires tag == family + "-" + rest && forall k | 0 <= k < |family| :: family[k] != '-'
    ensures FirstDash(tag) == |family| && tag[..|family|] == family
  {
    assert tag[|family|] == '-';
    forall k | 0 <= k < |family| ensures tag[k] != '-' { assert tag[k] == family[k]; }
  }

  lemma ImageIsHosted(tag: string, family: string, rest: string)
    requires IsImage(tag, family, rest)
    ensures IsHostedLabel(tag)
  {
    NoDashIn(family);
    DashAfter(tag, family, rest);
    forall k | |family| < k < |tag| ensures IsSuffixChar(tag[k]) {
      assert tag[k] == rest[k - |family| - 1] && rest[k - |family| - 1] in rest;
    }
  }

  lemma SelfHostedIsNotHosted()
    ensures !HostedImage("self-hosted")
  {
    HostedMeans("self-hosted");
    var s := "self-hosted";
    assert s[4] == '-';
    assert FirstDash(s) == 4;
    assert s[..4] == "self";
  }

  // ---- the one expression that is resolved: a whole-value `${{ matrix.<key> }}` ----------

  predicate IsKeyChar(c: char) {
    IsAlpha(c) || IsDigit(c) || c == '_' || c == '-'
  }

  predicate IsKey(k: string) {
    k != "" && forall i | 0 <= i < |k| :: IsKeyChar(k[i])
  }

  /** A name of letters, digits, underscores and dashes. */
  ghost predicate KeyText(key: string) {
    key != "" && forall c | c in key :: 'a' <= c <= 'z' || 'A' <= c <= 'Z' || '0' <= c <= '9' || c == '_' || c == '-'
  }

  lemma KeyIsText(key: string)
    ensures IsKey(key) <==> KeyText(key)
  {
    if KeyText(key) {
      forall i | 0 <= i < |key| ensures IsKeyChar(key[i]) { assert key[i] in key; }
    }
  }

  /** One `${{ … }}` wrapper taken off. */
  function Bare(t: string): Option<string> {
    if "${{" <= t && EndsWith(t[3..], "}}") then Some(t[3..|t| - 2]) else None
  }

  function KeyOf(inner: string): Option<string> {
    if "matrix." <= inner && IsKey(inner[7..]) then Some(inner[7..]) else None
  }

  /** The key, as the code strips its way to it. */
  function MatrixKey(tag: string): Option<string> {
    match Bare(Trim(tag))
    case None => None
    case Some(mid) => KeyOf(Trim(mid))
  }

  /** The key, as the template is written. */
  ghost predicate IsMatrixTemplate(tag: string, key: string) {
    exists a, b, c, d ::
      && AllSpace(a) && AllSpace(b) && AllSpace(c) && AllSpace(d) && KeyText(key)
      && tag == a + ("${{" + (b + ("matrix." + key) + c) + "}}") + d
  }

  lemma BareMeans(t: string, mid: string)
    ensures Bare(t) == Some(mid) <==> t == "${{" + mid + "}}"
  {
    if Bare(t) == Some(mid) {
      assert t[..3] == "${{" && t[|t| - 2..] == t[3..][|t| - 5..] == "}}";
      assert t == t[..3] + t[3..|t| - 2] + t[|t| - 2..];
    }
    var w := "${{" + mid + "}}";
    assert w[3..] == mid + "}}" && w[3..|w| - 2] == mid;
  }

  lemma KeyOfMeans(inner: string, key: string)
    ensures KeyOf(inner) == Some(key) <==> IsKey(key) && inner == "matrix." + key
  {
    if KeyOf(inner) == Some(key) {
      assert inner[..7] == "matrix.";
      assert inner == inner[..7] + inner[7..];
    }
    assert ("matrix." + key)[7..] == key;
  }

  lemma KeyFound(tag: string, key: string)
    requires MatrixKey(tag) == Some(key)
    ensures IsMatrixTemplate(tag, key)
  {
    var mid := Bare(Trim(tag)).value;
    BareMeans(Trim(tag), mid);
    KeyOfMeans(Trim(mid), key);
    KeyIsText(key);
    var a, d := TrimSplit(tag);
    var b, c := TrimSplit(mid);
  }

  lemma TemplateKey(tag: string, key: string)
    requires IsMatrixTemplate(tag, key)
    ensures MatrixKey(tag) == Some(key)
  {
    var a, b, c, d :| AllSpace(a) && AllSpace(b) && AllSpace(c) && AllSpace(d) && KeyText(key)
      && tag == a + ("${{" + (b + ("matrix." + key) + c) + "}}") + d;
    TemplateStripped(a, b, key, c, d);
  }

  lemma TemplateStripped(a: string, b: string, key: string, c: string, d: string)
    requires AllSpace(a) && AllSpace(b) && AllSpace(c) && AllSpace(d) && KeyText(key)
    ensures MatrixKey(a + ("${{" + (b + ("matrix." + key) + c) + "}}") + d) == Some(key)
  {
    var mid := b + ("matrix." + key) + c;
    KeyIsText(key);
    TrimWrapped(a, mid, d);
    BareMeans("${{" + mid + "}}", mid);
    TrimPath(b, key, c);
    KeyOfMeans("matrix." + key, key);
  }

  lemma TrimWrapped(a: string, mid: string, d: string)
    requires AllSpace(a) && AllSpace(d)
    ensures Trim(a + ("${{" + mid + "}}") + d) == "${{" + mid + "}}"
  {
    var core := "${{" + mid + "}}";
    assert core[0] == '$' && core[|core| - 1] == '}';
    TrimJoin(a, core, d);
  }

  lemma TrimPath(b: string, key: string, c: string)
    requires AllSpace(b) && AllSpace(c) && IsKey(key)
    ensures Trim(b + ("matrix." + key) + c) == "matrix." + key
  {
    var path := "matrix." + key;
    assert path[0] == 'm' && path[|path| - 1] == key[|key| - 1];
    TrimJoin(b, path, c);
  }

  // ---- the values of a matrix key --------------------------------------------------------

  /** All items as strings, if they are. */
  function Strings(items: seq<Yaml>): Option<seq<string>> {
    if items == [] then Some([])
    else
      match Strings(items[..|items| - 1])
      case None => None
      case Some(out) =>
        var last := items[|items| - 1];
        if last.YStr? then Some(out + [last.s]) else None
  }

  /** What the `include:` entries set `key` to; an entry that does not set it adds nothing. */
  function IncludeStrings(entries: seq<Yaml>, key: string): Option<seq<string>> {
    if entries == [] then Some([])
    else
      match IncludeStrings(entries[..|entries| - 1], key)
      case None => None
      case Some(out) =>
        match MapGet(entries[|entries| - 1], key)
        case None => Some(out)
        case Some(v) => if v.YStr? then Some(out + [v.s]) else None
  }

  function AxisStrings(axis: Option<Yaml>): Option<seq<string>> {
    match axis
    case None => Some([])
    case Some(v) => if v.YSeq? then Strings(v.items) else None
  }

  function IncludedStrings(entries: Option<Yaml>, key: string): Option<seq<string>> {
    match entries
    case None => Some([])
    case Some(v) => if v.YSeq? then IncludeStrings(v.items, key) else None
  }

  function Candidates(matrix: Option<Yaml>, key: string): Option<seq<string>> {
    if matrix.None? then None
    else
      match (AxisStrings(MapGet(matrix.value, key)), IncludedStrings(MapGet(matrix.value, "include"), key))
      case (Some(axis), Some(included)) => if axis + included == [] then None else Some(axis + included)
      case _ => None
  }

  method MatrixCandidates(matrix: Option<Yaml>, key: string) returns (r: Option<seq<string>>)
    ensures r == Candidates(matrix, key)
  {
    if matrix.None? { return None; }
    var out: seq<string> := [];
    var axis := MapGet(matrix.value, key);
    if axis.Some? {
      if !axis.value.YSeq? { return None; }
      var items := axis.value.items;
      for n := 0 to |items|
        invariant Strings(items[..n]) == Some(out)
      {
        assert items[..n + 1][..n] == items[..n];
        if !items[n].YStr? { NoStrings(items, n + 1); return None; }
        out := out + [items[n].s];
      }
      assert items[..|items|] == items;
    }
    ghost var axisOut := out;
    var entries := MapGet(matrix.value, "include");
    if entries.Some? {
      if !entries.value.YSeq? { return None; }
      var items := entries.value.items;
      ghost var more: seq<string> := [];
      for n := 0 to |items|
        invariant IncludeStrings(items[..n], key) == Some(more) && out == axisOut + more
      {
        assert items[..n + 1][..n] == items[..n];
        var v := MapGet(items[n], key);
        if v.Some? {
          if !v.value.YStr? { NoIncludeStrings(items, n + 1, key); return None; }
          out, more := out + [v.value.s], more + [v.value.s];
        }
      }
      assert items[..|items|] == items;
    }
    assert axisOut + [] == axisOut;
    r := if out == [] then None else Some(out);
  }

  lemma {:induction false} NoStrings(items: seq<Yaml>, n: nat)
    requires n <= |items| && Strings(items[..n]) == None
    ensures Strings(items) == None
    decreases |items| - n
  {
    if n < |items| {
      assert items[..n + 1][..n] == items[..n];
      NoStrings(items, n + 1);
    } else {
      assert items[..n] == items;
    }
  }

  lemma {:induction false} NoIncludeStrings(items: seq<Yaml>, n: nat, key: string)
    requires n <= |items| && IncludeStrings(items[..n], key) == None
    ensures IncludeStrings(items, key) == None
    decreases |items| - n
  {
    if n < |items| {
      assert items[..n + 1][..n] == items[..n];
      NoIncludeStrings(items, n + 1, key);
    } else {
      assert items[..n] == items;
    }
  }

  // ---- where a job can land, read off the file without deciding anything -----------------

  /** `tag` may be the value of `v` in some run: a string is itself, anything else may be anything. */
  predicate MayBe(v: Yaml, tag: string) {
    v.YStr? ==> v.s == tag
  }

  predicate AxisMayBe(axis: Option<Yaml>, tag: string) {
    match axis
    case None => false
    case Some(v) => if v.YSeq? then exists x | x in v.items :: MayBe(x, tag) else true
  }

  predicate IncludeMayBe(entries: Option<Yaml>, key: string, tag: string) {
    match entries
    case None => false
    case Some(v) =>
      if v.YSeq? then exists x | x in v.items :: Sets(x, key, tag)
      else true
  }

  /** A leg of the matrix may carry `tag` under `key`. A matrix that gives the key no value leaves
      it open. */
  ghost predicate MatrixMayBe(matrix: Option<Yaml>, key: string, tag: string) {
    match matrix
    case None => true
    case Some(m) =>
      var axis, entries := MapGet(m, key), MapGet(m, "include");
      || AxisMayBe(axis, tag)
      || IncludeMayBe(entries, key, tag)
      || forall t :: !AxisMayBe(axis, t) && !IncludeMayBe(entries, key, t)
  }

  /** The label written as `text` may resolve to `tag`. */
  ghost predicate LabelMayBe(text: string, matrix: Option<Yaml>, tag: string) {
    if !Contains(text, "${{") then tag == text
    else forall key | IsMatrixTemplate(text, key) :: MatrixMayBe(matrix, key, tag)
  }

  /** A job with this `runs-on` may land on `tag`. */
  ghost predicate MayLandOn(runsOn: Option<Yaml>, matrix: Option<Yaml>, tag: string) {
    match runsOn
    case None => true
    case Some(YStr(s)) => LabelMayBe(s, matrix, tag)
    case Some(YSeq(items)) => exists x | x in items :: x.YStr? ==> LabelMayBe(x.s, matrix, tag)
    case _ => true
  }

  // ---- the classifier --------------------------------------------------------------------

  lemma {:induction false} StringsMean(items: seq<Yaml>, tag: string)
    ensures Strings(items).Some? ==> ((exists x | x in items :: MayBe(x, tag)) <==> tag in Strings(items).value)
    ensures Strings(items).None? ==> exists x | x in items :: MayBe(x, tag)
  {
    if items != [] {
      var init, last := items[..|items| - 1], items[|items| - 1];
      StringsMean(init, tag);
      assert items == init + [last];
      assert last in items;
      assert forall x | x in init :: x in items;
    }
  }

  predicate Sets(x: Yaml, key: string, tag: string) {
    MapGet(x, key).Some? && MayBe(MapGet(x, key).value, tag)
  }

  lemma {:induction false} IncludeStringsMean(items: seq<Yaml>, key: string, tag: string)
    ensures var out := IncludeStrings(items, key);
            out.Some? ==> ((exists x | x in items :: Sets(x, key, tag)) <==> tag in out.value)
    ensures IncludeStrings(items, key).None? ==> exists x | x in items :: Sets(x, key, tag)
  {
    if items != [] {
      var init, last := items[..|items| - 1], items[|items| - 1];
      IncludeStringsMean(init, key, tag);
      assert items == init + [last];
      assert last in items;
      assert forall x | x in init :: x in items;
    }
  }

  lemma AxisMeans(axis: Option<Yaml>, tag: string)
    ensures match AxisStrings(axis)
            case Some(out) => AxisMayBe(axis, tag) <==> tag in out
            case None => AxisMayBe(axis, tag)
  {
    if axis.Some? && axis.value.YSeq? { StringsMean(axis.value.items, tag); }
  }

  lemma IncludeMeans(entries: Option<Yaml>, key: string, tag: string)
    ensures match IncludedStrings(entries, key)
            case Some(out) => IncludeMayBe(entries, key, tag) <==> tag in out
            case None => IncludeMayBe(entries, key, tag)
  {
    if entries.Some? && entries.value.YSeq? { IncludeStringsMean(entries.value.items, key, tag); }
  }

  /** The resolved candidates are exactly what the key may be; unresolved, it may be anything. */
  lemma CandidatesMean(matrix: Option<Yaml>, key: string, tag: string)
    ensures match Candidates(matrix, key)
            case Some(out) => MatrixMayBe(matrix, key, tag) <==> tag in out
            case None => MatrixMayBe(matrix, key, tag)
  {
    if matrix.Some? {
      var axis, entries := MapGet(matrix.value, key), MapGet(matrix.value, "include");
      AxisMeans(axis, tag);
      IncludeMeans(entries, key, tag);
      match Candidates(matrix, key) {
        case Some(out) =>
          AxisMeans(axis, out[0]);
          IncludeMeans(entries, key, out[0]);
          assert out[0] in out;
        case None =>
          forall t ensures AxisStrings(axis) == Some([]) && IncludedStrings(entries, key) == Some([])
                           ==> !AxisMayBe(axis, t) && !IncludeMayBe(entries, key, t)
          {
            AxisMeans(axis, t);
            IncludeMeans(entries, key, t);
          }
      }
    }
  }

  /** A label is proven when each thing it may be is on the whitelist. */
  predicate LabelProven(text: string, matrix: Option<Yaml>) {
    if !Contains(text, "${{") then IsHostedLabel(text)
    else
      match MatrixKey(text)
      case None => false
      case Some(key) => KeyProven(matrix, key)
  }

  ghost predicate LabelOnlyHosted(text: string, matrix: Option<Yaml>) {
    forall tag | LabelMayBe(text, matrix, tag) :: HostedImage(tag)
  }

  lemma LabelProvenMeans(text: string, matrix: Option<Yaml>)
    ensures LabelProven(text, matrix) <==> LabelOnlyHosted(text, matrix)
  {
    if !Contains(text, "${{") {
      HostedMeans(text);
    } else if MatrixKey(text).None? {
      NoTemplate(text, matrix);
      SelfHostedIsNotHosted();
    } else {
      ProvenTemplate(text, MatrixKey(text).value, matrix);
    }
  }

  lemma NoTemplate(text: string, matrix: Option<Yaml>)
    requires Contains(text, "${{") && MatrixKey(text).None?
    ensures forall tag :: LabelMayBe(text, matrix, tag)
  {
    forall key ensures !IsMatrixTemplate(text, key) {
      if IsMatrixTemplate(text, key) { TemplateKey(text, key); }
    }
  }

  lemma TemplateMeans(text: string, key: string, matrix: Option<Yaml>, tag: string)
    requires Contains(text, "${{") && MatrixKey(text) == Some(key)
    ensures LabelMayBe(text, matrix, tag) <==> MatrixMayBe(matrix, key, tag)
  {
    KeyFound(text, key);
    forall k | IsMatrixTemplate(text, k) ensures k == key { TemplateKey(text, k); }
  }

  lemma ProvenTemplate(text: string, key: string, matrix: Option<Yaml>)
    requires Contains(text, "${{") && MatrixKey(text) == Some(key)
    ensures LabelProven(text, matrix) <==> LabelOnlyHosted(text, matrix)
  {
    KeyProvenMeans(matrix, key);
    forall tag ensures LabelMayBe(text, matrix, tag) <==> MatrixMayBe(matrix, key, tag) {
      TemplateMeans(text, key, matrix, tag);
    }
  }

  predicate KeyProven(matrix: Option<Yaml>, key: string) {
    match Candidates(matrix, key)
    case None => false
    case Some(out) => forall c | c in out :: IsHostedLabel(c)
  }

  lemma KeyProvenMeans(matrix: Option<Yaml>, key: string)
    ensures KeyProven(matrix, key) <==> forall tag | MatrixMayBe(matrix, key, tag) :: HostedImage(tag)
  {
    match Candidates(matrix, key)
    case None =>
      SelfHostedIsNotHosted();
      CandidatesMean(matrix, key, "self-hosted");
    case Some(out) =>
      forall tag ensures MatrixMayBe(matrix, key, tag) <==> tag in out { CandidatesMean(matrix, key, tag); }
      forall tag ensures IsHostedLabel(tag) <==> HostedImage(tag) { HostedMeans(tag); }
  }

  datatype Why =
    | NoRunsOn | NotAPlainLabel | SelectsGroup | Neither
    | NotHosted(tag: string) | Unresolved(text: string)

  datatype Route = ProvablyHosted | Unproven(why: Why)

  ghost predicate OnlyHosted(runsOn: Option<Yaml>, matrix: Option<Yaml>) {
    forall tag | MayLandOn(runsOn, matrix, tag) :: HostedImage(tag)
  }

  /** The classifier proves a job hosted exactly when nothing it may land on is anything else. */
  method ClassifyRunsOn(runsOn: Option<Yaml>, matrix: Option<Yaml>) returns (r: Route)
    ensures r.ProvablyHosted? <==> OnlyHosted(runsOn, matrix)
    ensures r.Unproven? && r.why.NotHosted? ==> MayLandOn(runsOn, matrix, r.why.tag) && !HostedImage(r.why.tag)
  {
    SelfHostedIsNotHosted();
    if runsOn.None? {
      assert MayLandOn(runsOn, matrix, "self-hosted");
      return Unproven(NoRunsOn);
    }
    var labels: seq<string>;
    match runsOn.value {
      case YStr(s) =>
        labels := [s];
      case YSeq(items) =>
        labels := [];
        for n := 0 to |items|
          invariant |labels| == n && forall k | 0 <= k < n :: items[k] == YStr(labels[k])
        {
          if !items[n].YStr? {
            assert items[n] in items && MayLandOn(runsOn, matrix, "self-hosted");
            return Unproven(NotAPlainLabel);
          }
          labels := labels + [items[n].s];
        }
      case YMap(_) =>
        assert MayLandOn(runsOn, matrix, "self-hosted");
        return Unproven(SelectsGroup);
      case YOther =>
        assert MayLandOn(runsOn, matrix, "self-hosted");
        return Unproven(Neither);
    }
    LandsOnLabels(runsOn, matrix, labels);
    for n := 0 to |labels|
      invariant forall k | 0 <= k < n :: LabelProven(labels[k], matrix)
    {
      var why := ClassifyLabel(labels[n], matrix);
      if why.Some? {
        LabelProvenMeans(labels[n], matrix);
        return Unproven(why.value);
      }
    }
    forall k | 0 <= k < |labels| { LabelProvenMeans(labels[k], matrix); }
    r := ProvablyHosted;
  }

  lemma LandsOnLabels(runsOn: Option<Yaml>, matrix: Option<Yaml>, labels: seq<string>)
    requires runsOn.Some?
    requires (runsOn.value.YStr? && labels == [runsOn.value.s])
          || (runsOn.value.YSeq? && |labels| == |runsOn.value.items|
              && forall k | 0 <= k < |labels| :: runsOn.value.items[k] == YStr(labels[k]))
    ensures forall tag :: MayLandOn(runsOn, matrix, tag)
                     <==> exists k :: 0 <= k < |labels| && LabelMayBe(labels[k], matrix, tag)
  {
    if runsOn.value.YSeq? {
      var items := runsOn.value.items;
      forall tag, k | 0 <= k < |labels| && LabelMayBe(labels[k], matrix, tag)
        ensures MayLandOn(runsOn, matrix, tag)
      {
        assert items[k] in items;
      }
    } else {
      assert labels[0] == runsOn.value.s;
    }
  }

  method ClassifyLabel(text: string, matrix: Option<Yaml>) returns (why: Option<Why>)
    ensures why.None? <==> LabelProven(text, matrix)
    ensures why.Some? && why.value.NotHosted? ==>
              LabelMayBe(text, matrix, why.value.tag) && !HostedImage(why.value.tag)
  {
    if !Contains(text, "${{") {
      HostedMeans(text);
      return if IsHostedLabel(text) then None else Some(NotHosted(text));
    }
    var key := MatrixKey(text);
    if key.None? { return Some(Unresolved(text)); }
    var out := MatrixCandidates(matrix, key.value);
    if out.None? { return Some(Unresolved(text)); }
    var c := FirstUnhosted(out.value);
    if c.Some? {
      HostedMeans(c.value);
      TemplateMayBe(text, key.value, matrix, c.value);
      return Some(NotHosted(c.value));
    }
    why := None;
  }

  lemma TemplateMayBe(text: string, key: string, matrix: Option<Yaml>, tag: string)
    requires Contains(text, "${{") && MatrixKey(text) == Some(key)
    requires Candidates(matrix, key).Some? && tag in Candidates(matrix, key).value
    ensures LabelMayBe(text, matrix, tag)
  {
    CandidatesMean(matrix, key, tag);
    TemplateMeans(text, key, matrix, tag);
  }

  method FirstUnhosted(out: seq<string>) returns (r: Option<string>)
    ensures r.None? <==> forall c | c in out :: IsHostedLabel(c)
    ensures r.Some? ==> r.value in out && !IsHostedLabel(r.value)
  {
    for n := 0 to |out|
      invariant forall k | 0 <= k < n :: IsHostedLabel(out[k])
    {
      if !IsHostedLabel(out[n]) { return Some(out[n]); }
    }
    r := None;
  }
}
