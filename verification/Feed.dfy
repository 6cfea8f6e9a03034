/** The release feed (`xtask/src/changelog.rs`): its rings and the operations on one ring. An entry
    carries its version as the number triple: the feed is refused at load unless every version is
    plain SemVer, and `SemVer.OneSpelling` says the triple and the text determine each other. */
module Feeds {
  import opened Options
  import opened Text
  import opened SemVer

  datatype ChangeType = Added | Changed | Fixed | Removed

  datatype Facade = Unaffected | ApiChanged | Breaking

  datatype Lang = En | De

  datatype Migration = Migration(en: string, de: string)

  datatype Item = Item(
    changeType: ChangeType, en: string, de: string, migration: Option<Migration>,
    facade: Option<Facade>, security: bool, unreleased: bool)

  datatype Notes = Notes(en: string, de: string)

  datatype Entry = Entry(version: Version, date: string, items: seq<Item>, notes: Notes)

  datatype Feed = Feed(alpha: seq<Entry>, beta: seq<Entry>, stable: seq<Entry>)

  // ---- rendering -------------------------------------------------------------------------

  const TYPE_ORDER: seq<ChangeType> := [Added, Changed, Fixed, Removed]

  function Heading(ct: ChangeType, lang: Lang): string {
    match (ct, lang)
    case (Added, En) => "Added"
    case (Changed, En) => "Changed"
    case (Fixed, En) => "Fixed"
    case (Removed, En) => "Removed"
    case (Added, De) => "Neu"
    case (Changed, De) => "Ge\U{E4}ndert"
    case (Fixed, De) => "Behoben"
    case (Removed, De) => "Entfernt"
  }

  function TextOf(item: Item, lang: Lang): string {
    if lang == En then item.en else item.de
  }

  function Bullet(item: Item, lang: Lang): string { "\n- " + Trim(TextOf(item, lang)) }

  /** The items of one type, in order. */
  function TypeItems(items: seq<Item>, ct: ChangeType): seq<Item> {
    if items == [] then []
    else
      var init, last := items[..|items| - 1], items[|items| - 1];
      if last.changeType == ct then TypeItems(init, ct) + [last] else TypeItems(init, ct)
  }

  function Bullets(group: seq<Item>, lang: Lang): seq<string> {
    if group == [] then [] else Bullets(group[..|group| - 1], lang) + [Bullet(group[|group| - 1], lang)]
  }

  function Concat(ss: seq<string>): string {
    if ss == [] then "" else Concat(ss[..|ss| - 1]) + ss[|ss| - 1]
  }

  function FacadeLabel(f: Facade): string {
    match f
    case Unaffected => "none"
    case ApiChanged => "changed"
    case Breaking => "breaking"
  }

  function FacadeBullet(item: Item, lang: Lang): string
    requires item.facade.Some?
  {
    "\n- `" + FacadeLabel(item.facade.value) + "` \U{B7} "
    + (if item.security then (if lang == En then "security" else "Sicherheit") + " \U{B7} " else "")
    + Trim(TextOf(item, lang))
  }

  function FacadeBullets(items: seq<Item>, lang: Lang): string {
    if items == [] then ""
    else
      var last := items[|items| - 1];
      FacadeBullets(items[..|items| - 1], lang) + if last.facade.Some? then FacadeBullet(last, lang) else ""
  }

  predicate HasFacade(items: seq<Item>) {
    exists i | 0 <= i < |items| :: items[i].facade.Some?
  }

  function TypeBlocks(items: seq<Item>, types: seq<ChangeType>, lang: Lang): seq<string> {
    if types == [] then []
    else
      var ct := types[|types| - 1];
      TypeBlocks(items, types[..|types| - 1], lang) + TypeBlock(items, ct, lang)
  }

  function TypeBlock(items: seq<Item>, ct: ChangeType, lang: Lang): seq<string> {
    var group := TypeItems(items, ct);
    if group == [] then [] else ["### " + Heading(ct, lang) + Concat(Bullets(group, lang))]
  }

  function FacadeBlocks(items: seq<Item>, lang: Lang): seq<string> {
    if HasFacade(items) then
      ["### " + (if lang == En then "Facade Contract" else "Facade-Kontrakt") + FacadeBullets(items, lang)]
    else []
  }

  function JoinBlocks(blocks: seq<string>): string {
    if blocks == [] then ""
    else if |blocks| == 1 then blocks[0]
    else JoinBlocks(blocks[..|blocks| - 1]) + "\n\n" + blocks[|blocks| - 1]
  }

  /** What `render_notes` renders. */
  function Rendered(items: seq<Item>, lang: Lang): string {
    JoinBlocks(TypeBlocks(items, TYPE_ORDER, lang) + FacadeBlocks(items, lang))
  }

  function NotesOf(items: seq<Item>): Notes {
    Notes(Rendered(items, En), Rendered(items, De))
  }

  function BuildEntry(version: Version, date: string, items: seq<Item>): Entry {
    Entry(version, date, items, NotesOf(items))
  }

  method RenderNotes(items: seq<Item>, lang: Lang) returns (s: string)
    ensures s == Rendered(items, lang)
  {
    var blocks := RenderTypes(items, TYPE_ORDER, lang);
    var facade := RenderFacade(items, lang);
    s := JoinBlocks(blocks + facade);
  }

  method RenderTypes(items: seq<Item>, types: seq<ChangeType>, lang: Lang) returns (blocks: seq<string>)
    ensures blocks == TypeBlocks(items, types, lang)
  {
    blocks := [];
    for i := 0 to |types|
      invariant blocks == TypeBlocks(items, types[..i], lang)
    {
      assert types[..i + 1][..i] == types[..i];
      var block := RenderType(items, types[i], lang);
      blocks := blocks + block;
    }
    assert types[..|types|] == types;
  }

  method RenderType(items: seq<Item>, ct: ChangeType, lang: Lang) returns (blocks: seq<string>)
    ensures blocks == TypeBlock(items, ct, lang)
  {
    var group: seq<Item> := [];
    for j := 0 to |items|
      invariant group == TypeItems(items[..j], ct)
    {
      assert items[..j + 1][..j] == items[..j];
      if items[j].changeType == ct { group := group + [items[j]]; }
    }
    assert items[..|items|] == items;
    if group == [] { return []; }
    var body := ConcatAll(Bullets(group, lang));
    blocks := ["### " + Heading(ct, lang) + body];
  }

  method ConcatAll(ss: seq<string>) returns (body: string)
    ensures body == Concat(ss)
  {
    body := "";
    for j := 0 to |ss|
      invariant body == Concat(ss[..j])
    {
      assert ss[..j + 1] == ss[..j] + [ss[j]];
      ConcatNext(ss[..j], ss[j]);
      body := body + ss[j];
    }
    assert ss[..|ss|] == ss;
  }

  lemma ConcatNext(ss: seq<string>, t: string)
    ensures Concat(ss + [t]) == Concat(ss) + t
  {
    assert (ss + [t])[..|ss|] == ss;
  }

  method RenderFacade(items: seq<Item>, lang: Lang) returns (blocks: seq<string>)
    ensures blocks == FacadeBlocks(items, lang)
  {
    if !HasFacade(items) { return []; }
    var block := "";
    for j := 0 to |items|
      invariant block == FacadeBullets(items[..j], lang)
    {
      assert items[..j + 1][..j] == items[..j];
      if items[j].facade.Some? { block := block + FacadeBullet(items[j], lang); }
    }
    assert items[..|items|] == items;
    blocks := ["### " + (if lang == En then "Facade Contract" else "Facade-Kontrakt") + block];
  }

  // ---- one ring --------------------------------------------------------------------------

  /** Strictly newest first: one entry per version. */
  predicate Descending(ring: seq<Entry>) {
    forall i, j | 0 <= i < j < |ring| :: Lt(ring[j].version, ring[i].version)
  }

  function Without(ring: seq<Entry>, v: Version): seq<Entry> {
    if ring == [] then []
    else
      var last := ring[|ring| - 1];
      Without(ring[..|ring| - 1], v) + if last.version != v then [last] else []
  }

  /** `sort_by` newest first is stable: an entry goes after those that are not older. */
  function InsertNewest(ring: seq<Entry>, e: Entry): seq<Entry> {
    if ring == [] then [e]
    else
      var last := ring[|ring| - 1];
      if Lt(last.version, e.version) then InsertNewest(ring[..|ring| - 1], e) + [last] else ring + [e]
  }

  function SortNewest(es: seq<Entry>): seq<Entry> {
    if es == [] then [] else InsertNewest(SortNewest(es[..|es| - 1]), es[|es| - 1])
  }

  /** Replace any entry of that version, insert, sort. */
  function Upserted(ring: seq<Entry>, e: Entry): seq<Entry> {
    SortNewest(Without(ring, e.version) + [e])
  }

  lemma {:induction false} WithoutKeeps(ring: seq<Entry>, v: Version)
    ensures forall x :: x in Without(ring, v) <==> x in ring && x.version != v
    ensures Descending(ring) ==> Descending(Without(ring, v))
  {
    if ring != [] {
      var init, last := ring[..|ring| - 1], ring[|ring| - 1];
      WithoutKeeps(init, v);
      assert ring == init + [last];
      if Descending(ring) && last.version != v {
        var w := Without(init, v);
        forall i | 0 <= i < |w| ensures Lt(last.version, w[i].version) {
          assert w[i] in init;
        }
      }
    }
  }

  lemma {:induction false} InsertKeeps(ring: seq<Entry>, e: Entry)
    requires Descending(ring) && forall x | x in ring :: x.version != e.version
    ensures Descending(InsertNewest(ring, e))
    ensures forall x :: x in InsertNewest(ring, e) <==> x in ring || x == e
  {
    if ring != [] {
      var init, last := ring[..|ring| - 1], ring[|ring| - 1];
      assert ring == init + [last];
      assert last in ring;
      LtTotal(last.version, e.version);
      if Lt(last.version, e.version) {
        assert forall x | x in init :: x in ring;
        InsertKeeps(init, e);
        var w := InsertNewest(init, e);
        forall i | 0 <= i < |w| ensures Lt(last.version, w[i].version) {
          assert w[i] in w;
          if w[i] != e { var k :| 0 <= k < |init| && init[k] == w[i]; }
        }
      } else {
        forall i | 0 <= i < |ring| ensures Lt(e.version, ring[i].version) {
          LtTotal(ring[i].version, e.version);
        }
      }
    }
  }

  lemma {:induction false} SortDescending(ring: seq<Entry>)
    requires Descending(ring)
    ensures SortNewest(ring) == ring
  {
    if ring != [] {
      var init, last := ring[..|ring| - 1], ring[|ring| - 1];
      SortDescending(init);
      assert ring == init + [last];
      if init != [] { LtTotal(init[|init| - 1].version, last.version); }
    }
  }

  /** On a well-kept ring, upserting replaces one entry and keeps it well-kept. */
  lemma UpsertKeeps(ring: seq<Entry>, e: Entry)
    requires Descending(ring)
    ensures Descending(Upserted(ring, e))
    ensures forall x :: x in Upserted(ring, e) <==> x == e || (x in ring && x.version != e.version)
  {
    var w := Without(ring, e.version);
    WithoutKeeps(ring, e.version);
    SortDescending(w);
    assert (w + [e])[..|w|] == w;
    InsertKeeps(w, e);
  }

  /** Two well-kept rings with the same entries are the same ring. */
  lemma {:induction false} RingDetermined(a: seq<Entry>, b: seq<Entry>)
    requires Descending(a) && Descending(b) && forall x :: x in a <==> x in b
    ensures a == b
  {
    assert b != [] ==> b[0] in b;
    if a != [] {
      assert a[0] in a && b != [];
      var i :| 0 <= i < |b| && b[i] == a[0];
      var j :| 0 <= j < |a| && a[j] == b[0];
      LtTotal(a[0].version, b[0].version);
      assert a[0] == b[0];
      assert a == [a[0]] + a[1..] && b == [b[0]] + b[1..];
      forall x ensures x in a[1..] <==> x in b[1..] {
        if x in a[1..] {
          var k :| 0 <= k < |a[1..]| && a[1..][k] == x;
          assert Lt(a[k + 1].version, a[0].version);
          assert x in b;
        }
        if x in b[1..] {
          var k :| 0 <= k < |b[1..]| && b[1..][k] == x;
          assert Lt(b[k + 1].version, b[0].version);
          assert x in a;
        }
      }
      RingDetermined(a[1..], b[1..]);
    }
  }

  /** The entry of a version. */
  function Find(ring: seq<Entry>, v: Version): Option<Entry> {
    if ring == [] then None
    else if ring[0].version == v then Some(ring[0])
    else Find(ring[1..], v)
  }

  lemma {:induction false} FindMeans(ring: seq<Entry>, v: Version)
    ensures Find(ring, v).Some? ==> Find(ring, v).value in ring && Find(ring, v).value.version == v
    ensures Find(ring, v).None? ==> forall x | x in ring :: x.version != v
  {
    if ring != [] && ring[0].version != v { FindMeans(ring[1..], v); }
  }

  lemma FindOnly(ring: seq<Entry>, e: Entry)
    requires Descending(ring) && e in ring
    ensures Find(ring, e.version) == Some(e)
  {
    FindMeans(ring, e.version);
    var i :| 0 <= i < |ring| && ring[i] == e;
    var f := Find(ring, e.version).value;
    var j :| 0 <= j < |ring| && ring[j] == f;
  }
}
