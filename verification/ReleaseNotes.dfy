/** What the rendered notes of an entry show (`render_notes` in `xtask/src/changelog.rs`): every item
    under its type, and once more under the facade contract when it carries a facade flag. */
module ReleaseNotes {
  import opened Options
  import opened Text
  import opened Feeds

  /** The text stands somewhere in the notes. */
  ghost predicate Shows(notes: string, text: string) {
    exists before, after :: notes == before + text + after
  }

  lemma ShowsWithin(before: string, part: string, after: string, text: string)
    requires Shows(part, text)
    ensures Shows(before + part + after, text)
  {
    var b, a :| part == b + text + a;
    assert before + part + after == (before + b) + text + (a + after);
  }

  lemma ShowsItself(before: string, text: string, after: string)
    ensures Shows(before + text + after, text)
  {
  }

  lemma {:induction false} ConcatShows(ss: seq<string>, t: string)
    requires t in ss
    ensures Shows(Concat(ss), t)
  {
    var init, last := ss[..|ss| - 1], ss[|ss| - 1];
    assert ss == init + [last];
    assert Concat(init) + last + "" == Concat(init) + last;
    if t == last {
      ShowsItself(Concat(init), t, "");
    } else {
      ConcatShows(init, t);
      ShowsWithin("", Concat(init), last, t);
      assert "" + Concat(init) + last == Concat(init) + last;
    }
  }

  lemma {:induction false} JoinShows(blocks: seq<string>, t: string)
    requires t in blocks
    ensures Shows(JoinBlocks(blocks), t)
  {
    var init, last := blocks[..|blocks| - 1], blocks[|blocks| - 1];
    assert blocks == init + [last];
    if |blocks| == 1 {
      ShowsItself("", t, "");
      assert "" + t + "" == t;
    } else if t == last {
      ShowsItself(JoinBlocks(init) + "\n\n", t, "");
      assert JoinBlocks(init) + "\n\n" + t + "" == JoinBlocks(init) + "\n\n" + t;
    } else {
      JoinShows(init, t);
      ShowsWithin("", JoinBlocks(init), "\n\n" + last, t);
      assert "" + JoinBlocks(init) + ("\n\n" + last) == JoinBlocks(init) + "\n\n" + last;
    }
  }

  lemma {:induction false} BulletIn(group: seq<Item>, x: Item, lang: Lang)
    requires x in group
    ensures Bullet(x, lang) in Bullets(group, lang)
  {
    var init, last := group[..|group| - 1], group[|group| - 1];
    assert group == init + [last];
    if x != last { BulletIn(init, x, lang); }
  }

  lemma {:induction false} TypeItemsMean(items: seq<Item>, ct: ChangeType, x: Item)
    ensures x in TypeItems(items, ct) <==> x in items && x.changeType == ct
  {
    if items != [] {
      var init, last := items[..|items| - 1], items[|items| - 1];
      assert items == init + [last];
      TypeItemsMean(init, ct, x);
    }
  }

  /** The block of a type: its heading, and one bullet for each of its items. */
  function BlockOf(items: seq<Item>, ct: ChangeType, lang: Lang): string {
    "### " + Heading(ct, lang) + Concat(Bullets(TypeItems(items, ct), lang))
  }

  lemma {:induction false} BlockIn(items: seq<Item>, types: seq<ChangeType>, ct: ChangeType, lang: Lang)
    requires ct in types && TypeItems(items, ct) != []
    ensures BlockOf(items, ct, lang) in TypeBlocks(items, types, lang)
  {
    var init, last := types[..|types| - 1], types[|types| - 1];
    assert types == init + [last];
    if ct in init { BlockIn(items, init, ct, lang); }
  }

  lemma BlockShows(items: seq<Item>, x: Item, lang: Lang)
    requires x in items
    ensures Shows(BlockOf(items, x.changeType, lang), Bullet(x, lang)) && TypeItems(items, x.changeType) != []
  {
    var group := TypeItems(items, x.changeType);
    TypeItemsMean(items, x.changeType, x);
    BulletIn(group, x, lang);
    ConcatShows(Bullets(group, lang), Bullet(x, lang));
    var head, body := "### " + Heading(x.changeType, lang), Concat(Bullets(group, lang));
    ShowsWithin(head, body, "", Bullet(x, lang));
    assert head + body + "" == head + body;
  }

  /** Every item of an entry stands in its notes, in both languages, in a block under the heading of
      its type. */
  lemma EveryItemShows(items: seq<Item>, x: Item, lang: Lang)
    requires x in items
    ensures Shows(Rendered(items, lang), BlockOf(items, x.changeType, lang))
    ensures Shows(BlockOf(items, x.changeType, lang), Bullet(x, lang))
    ensures Shows(Rendered(items, lang), Bullet(x, lang))
  {
    var ct := x.changeType;
    var block := BlockOf(items, ct, lang);
    BlockShows(items, x, lang);
    AllTypes(ct);
    BlockIn(items, TYPE_ORDER, ct, lang);
    var blocks := TypeBlocks(items, TYPE_ORDER, lang) + FacadeBlocks(items, lang);
    assert block in blocks;
    JoinShows(blocks, block);
    ShowsTrans(Rendered(items, lang), block, Bullet(x, lang));
  }

  lemma AllTypes(ct: ChangeType)
    ensures ct in TYPE_ORDER
  {
    assert TYPE_ORDER[0] == Added && TYPE_ORDER[1] == Changed && TYPE_ORDER[2] == Fixed && TYPE_ORDER[3] == Removed;
  }

  lemma ShowsTrans(notes: string, block: string, text: string)
    requires Shows(notes, block) && Shows(block, text)
    ensures Shows(notes, text)
  {
    var before, after :| notes == before + block + after;
    ShowsWithin(before, block, after, text);
  }

  /** The facade contract: its heading, and one bullet for each flagged item. */
  function ContractOf(items: seq<Item>, lang: Lang): string {
    "### " + (if lang == En then "Facade Contract" else "Facade-Kontrakt") + FacadeBullets(items, lang)
  }

  /** An item with a facade flag stands in the facade contract too, with its label, under the heading
      of the contract. */
  lemma FacadeItemShows(items: seq<Item>, x: Item, lang: Lang)
    requires x in items && x.facade.Some?
    ensures Shows(Rendered(items, lang), ContractOf(items, lang))
    ensures Shows(ContractOf(items, lang), FacadeBullet(x, lang))
    ensures Shows(Rendered(items, lang), FacadeBullet(x, lang))
  {
    var head := "### " + (if lang == En then "Facade Contract" else "Facade-Kontrakt");
    var i :| 0 <= i < |items| && items[i] == x;
    assert HasFacade(items);
    FacadeBulletShows(items, x, lang);
    ShowsWithin(head, FacadeBullets(items, lang), "", FacadeBullet(x, lang));
    assert head + FacadeBullets(items, lang) + "" == head + FacadeBullets(items, lang);
    var block := ContractOf(items, lang);
    var blocks := TypeBlocks(items, TYPE_ORDER, lang) + FacadeBlocks(items, lang);
    assert FacadeBlocks(items, lang) == [block] && block in blocks;
    JoinShows(blocks, block);
    ShowsTrans(Rendered(items, lang), block, FacadeBullet(x, lang));
  }

  lemma ShowsNext(sofar: string, more: string, text: string)
    requires Shows(sofar, text) || more == text
    ensures Shows(sofar + more, text)
  {
    if more == text {
      ShowsItself(sofar, text, "");
      assert sofar + text + "" == sofar + text;
    } else {
      ShowsWithin("", sofar, more, text);
      assert "" + sofar + more == sofar + more;
    }
  }

  lemma FacadeNext(items: seq<Item>, lang: Lang) returns (more: string)
    requires items != []
    ensures FacadeBullets(items, lang) == FacadeBullets(items[..|items| - 1], lang) + more
    ensures items[|items| - 1].facade.Some? ==> more == FacadeBullet(items[|items| - 1], lang)
  {
    more := if items[|items| - 1].facade.Some? then FacadeBullet(items[|items| - 1], lang) else "";
  }

  lemma {:induction false} FacadeBulletShows(items: seq<Item>, x: Item, lang: Lang)
    requires x in items && x.facade.Some?
    ensures Shows(FacadeBullets(items, lang), FacadeBullet(x, lang))
  {
    var init := items[..|items| - 1];
    assert items == init + [items[|items| - 1]];
    var more := FacadeNext(items, lang);
    if x in init { FacadeBulletShows(init, x, lang); }
    ShowsNext(FacadeBullets(init, lang), more, FacadeBullet(x, lang));
  }

  // ---- how often and in which order ------------------------------------------------------

  /** The items of a type are the items of that type, each as often as it is there. */
  lemma {:induction false} TypeItemsCount(items: seq<Item>, ct: ChangeType, x: Item)
    ensures multiset(TypeItems(items, ct))[x] == if x.changeType == ct then multiset(items)[x] else 0
  {
    if items != [] {
      var init, last := items[..|items| - 1], items[|items| - 1];
      assert items == init + [last];
      TypeItemsCount(init, ct, x);
    }
  }

  /** They keep their order: picking goes part by part. */
  lemma {:induction false} TypeItemsInOrder(a: seq<Item>, b: seq<Item>, ct: ChangeType)
    ensures TypeItems(a + b, ct) == TypeItems(a, ct) + TypeItems(b, ct)
  {
    if b == [] {
      assert a + b == a;
    } else {
      assert (a + b)[..|a + b| - 1] == a + b[..|b| - 1];
      TypeItemsInOrder(a, b[..|b| - 1], ct);
    }
  }

  /** One bullet for each item, in their order. */
  lemma {:induction false} BulletsInOrder(items: seq<Item>, lang: Lang, parts: seq<string>)
    requires |parts| == |items| && forall i | 0 <= i < |items| :: parts[i] == Bullet(items[i], lang)
    ensures Bullets(items, lang) == parts
  {
    if items != [] {
      var n := |items| - 1;
      BulletsInOrder(items[..n], lang, parts[..n]);
      NextBullet(items, lang, n, parts[n]);
      LastApart(parts, n);
    }
  }

  lemma NextBullet(items: seq<Item>, lang: Lang, n: nat, bullet: string)
    requires |items| == n + 1 && bullet == Bullet(items[n], lang)
    ensures Bullets(items, lang) == Bullets(items[..n], lang) + [bullet]
  {
  }

  lemma LastApart(parts: seq<string>, n: nat)
    requires |parts| == n + 1
    ensures parts == parts[..n] + [parts[n]]
  {
  }

  /** The parts of a block one after the other, with nothing between them. */
  lemma {:induction false} ConcatParts(a: seq<string>, b: seq<string>)
    ensures Concat(a + b) == Concat(a) + Concat(b) && forall t :: Concat([t]) == t
  {
    if b == [] {
      assert a + b == a;
    } else {
      assert (a + b)[..|a + b| - 1] == a + b[..|b| - 1];
      ConcatParts(a, b[..|b| - 1]);
    }
    forall t ensures Concat([t]) == t { assert [t][..0] == []; }
  }

  /** The blocks one after the other, with an empty line between them. */
  lemma {:induction false} JoinParts(a: seq<string>, b: seq<string>)
    requires a != [] && b != []
    ensures JoinBlocks(a + b) == JoinBlocks(a) + "\n\n" + JoinBlocks(b)
  {
    var init, last := b[..|b| - 1], b[|b| - 1];
    assert (a + b)[..|a + b| - 1] == a + init && (a + b)[|a + b| - 1] == last;
    if init == [] {
      assert a + init == a && b == [last];
    } else {
      JoinParts(a, init);
      assert JoinBlocks(a) + "\n\n" + JoinBlocks(init) + "\n\n" + last == JoinBlocks(a) + "\n\n" + (JoinBlocks(init) + "\n\n" + last);
    }
  }

  /** The contract lists the bullets of the flagged items, in their order, and nothing for the others. */
  lemma {:induction false} ContractInOrder(items: seq<Item>, lang: Lang, parts: seq<string>)
    requires |parts| == |items|
    requires forall i | 0 <= i < |items| :: parts[i] == if items[i].facade.Some? then FacadeBullet(items[i], lang) else ""
    ensures FacadeBullets(items, lang) == Concat(parts)
  {
    if items != [] { ContractInOrder(items[..|items| - 1], lang, parts[..|parts| - 1]); }
  }

  /** No block for a type without items. */
  function OneBlock(items: seq<Item>, ct: ChangeType, lang: Lang): seq<string> {
    if TypeItems(items, ct) == [] then [] else [BlockOf(items, ct, lang)]
  }

  lemma NextBlock(items: seq<Item>, types: seq<ChangeType>, n: nat, lang: Lang, block: seq<string>)
    requires |types| == n + 1 && block == OneBlock(items, types[n], lang)
    ensures TypeBlocks(items, types, lang) == TypeBlocks(items, types[..n], lang) + block
  {
  }

  lemma TwoBlocks(items: seq<Item>, types: seq<ChangeType>, lang: Lang, p: seq<string>, q: seq<string>)
    requires |types| == 2 && p == OneBlock(items, types[0], lang) && q == OneBlock(items, types[1], lang)
    ensures TypeBlocks(items, types, lang) == p + q
  {
    NextBlock(items, types, 1, lang, q);
    NextBlock(items, types[..1], 0, lang, p);
  }

  lemma FourBlocks(items: seq<Item>, types: seq<ChangeType>, lang: Lang, p: seq<string>, q: seq<string>, r: seq<string>, s: seq<string>)
    requires |types| == 4 && p == OneBlock(items, types[0], lang) && q == OneBlock(items, types[1], lang)
    requires r == OneBlock(items, types[2], lang) && s == OneBlock(items, types[3], lang)
    ensures TypeBlocks(items, types, lang) == p + q + r + s
  {
    NextBlock(items, types, 3, lang, s);
    NextBlock(items, types[..3], 2, lang, r);
    TwoBlocks(items, types[..3][..2], lang, p, q);
  }

  lemma TypesInOrder(items: seq<Item>, lang: Lang)
    ensures TypeBlocks(items, TYPE_ORDER, lang)
            == OneBlock(items, Added, lang) + OneBlock(items, Changed, lang) + OneBlock(items, Fixed, lang) + OneBlock(items, Removed, lang)
  {
    FourBlocks(items, TYPE_ORDER, lang, OneBlock(items, Added, lang), OneBlock(items, Changed, lang), OneBlock(items, Fixed, lang),
               OneBlock(items, Removed, lang));
  }

  /** The notes are the blocks of what was added, changed, fixed and removed, in this order, and then
      the facade contract if an item is flagged. */
  lemma BlocksInOrder(items: seq<Item>, lang: Lang)
    ensures Rendered(items, lang) ==
            JoinBlocks(OneBlock(items, Added, lang) + OneBlock(items, Changed, lang) + OneBlock(items, Fixed, lang) + OneBlock(items, Removed, lang)
                       + (if exists x | x in items :: x.facade.Some? then [ContractOf(items, lang)] else []))
  {
    TypesInOrder(items, lang);
    assert HasFacade(items) <==> exists x | x in items :: x.facade.Some?;
  }

  // ---- the words -------------------------------------------------------------------------

  /** The headings, and what a bullet says, in both languages. */
  lemma WrittenOut(x: Item)
    ensures Heading(Added, En) == "Added" && Heading(Changed, En) == "Changed" && Heading(Fixed, En) == "Fixed" && Heading(Removed, En) == "Removed"
    ensures Heading(Added, De) == "Neu" && Heading(Changed, De) == "Ge\U{E4}ndert" && Heading(Fixed, De) == "Behoben" && Heading(Removed, De) == "Entfernt"
    ensures Bullet(x, En) == "\n- " + Trim(x.en) && Bullet(x, De) == "\n- " + Trim(x.de)
  {
  }

  /** A bullet of the contract: the label, the security mark in the reader's language, the text. */
  lemma ContractWrittenOut(x: Item, label_: string)
    requires x.facade.Some? && !x.facade.value.Unaffected? && label_ == if x.facade.value.Breaking? then "breaking" else "changed"
    ensures FacadeBullet(x, En) == "\n- `" + label_ + "` \U{B7} " + (if x.security then "security" + " \U{B7} " else "") + Trim(x.en)
    ensures FacadeBullet(x, De) == "\n- `" + label_ + "` \U{B7} " + (if x.security then "Sicherheit" + " \U{B7} " else "") + Trim(x.de)
  {
  }
}
