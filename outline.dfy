/**
 * Outline entries collected from the headings of a document, and `normalizedOutline`,
 * which drops a lone level-1 heading (the document title) and promotes the others.
 */
module Outline {

  /** An outline entry: the heading's plain text, its level and the id of its anchor. */
  datatype OutlineItem = OutlineItem(title: string, level: int, anchorID: string)

  /** How many entries are level-1 headings. */
  function H1Count(items: seq<OutlineItem>): (n: nat)
    ensures n <= |items|
  {
    if items == [] then 0
    else H1Count(items[..|items| - 1]) + (if items[|items| - 1].level == 1 then 1 else 0)
  }

  /** An entry one level higher, but never above level 1. */
  function Promoted(item: OutlineItem): OutlineItem {
    OutlineItem(item.title, if item.level - 1 > 1 then item.level - 1 else 1, item.anchorID)
  }

  /** The `compactMap` of `normalizedOutline`: level-1 entries dropped, the others promoted. */
  function PromoteAll(items: seq<OutlineItem>): seq<OutlineItem> {
    if items == [] then []
    else
      var last := items[|items| - 1];
      PromoteAll(items[..|items| - 1]) + (if last.level == 1 then [] else [Promoted(last)])
  }

  /** `normalizedOutline`. */
  function NormalizedOutline(items: seq<OutlineItem>): seq<OutlineItem> {
    if H1Count(items) == 1 then PromoteAll(items) else items
  }

  lemma {:induction false} H1CountAppend(a: seq<OutlineItem>, b: seq<OutlineItem>)
    ensures H1Count(a + b) == H1Count(a) + H1Count(b)
    decreases |b|
  {
    if b == [] {
      assert a + b == a;
    } else {
      assert (a + b)[..|a + b| - 1] == a + b[..|b| - 1];
      H1CountAppend(a, b[..|b| - 1]);
    }
  }

  lemma {:induction false} H1CountNone(items: seq<OutlineItem>)
    requires forall i | 0 <= i < |items| :: items[i].level != 1
    ensures H1Count(items) == 0
    decreases |items|
  {
    if items != [] {
      H1CountNone(items[..|items| - 1]);
    }
  }

  lemma {:induction false} H1CountAtLeast(items: seq<OutlineItem>, h: nat)
    requires h < |items| && items[h].level == 1
    ensures H1Count(items) >= 1
  {
    assert items == items[..h] + [items[h]] + items[h + 1..];
    H1CountAppend(items[..h] + [items[h]], items[h + 1..]);
    H1CountAppend(items[..h], [items[h]]);
    assert [items[h]][..0] == [];
  }

  lemma {:induction false} PromoteAllAppend(a: seq<OutlineItem>, b: seq<OutlineItem>)
    ensures PromoteAll(a + b) == PromoteAll(a) + PromoteAll(b)
    decreases |b|
  {
    if b == [] {
      assert a + b == a;
    } else {
      assert (a + b)[..|a + b| - 1] == a + b[..|b| - 1];
      PromoteAllAppend(a, b[..|b| - 1]);
    }
  }

  /** Without level-1 entries, every entry is kept and promoted, in order. */
  lemma {:induction false} PromoteAllNoH1(items: seq<OutlineItem>)
    requires forall i | 0 <= i < |items| :: items[i].level != 1
    ensures |PromoteAll(items)| == |items|
    ensures forall i | 0 <= i < |items| :: PromoteAll(items)[i] == Promoted(items[i])
    decreases |items|
  {
    if items != [] {
      PromoteAllNoH1(items[..|items| - 1]);
    }
  }

  /**
   * With exactly one level-1 entry, at `h`, the outline loses that entry and every other
   * entry moves up one level (to no higher than level 1), in the original order.
   */
  lemma NormalizedOutlineSingleH1(items: seq<OutlineItem>, h: nat)
    requires h < |items| && items[h].level == 1
    requires forall i | 0 <= i < |items| && i != h :: items[i].level != 1
    ensures |NormalizedOutline(items)| == |items| - 1
    ensures forall i | 0 <= i < |items| - 1 ::
      NormalizedOutline(items)[i] == Promoted(items[if i < h then i else i + 1])
  {
    var before, after := items[..h], items[h + 1..];
    assert items == before + [items[h]] + after;
    H1CountAppend(before + [items[h]], after);
    H1CountAppend(before, [items[h]]);
    assert [items[h]][..0] == [];
    H1CountNone(before);
    H1CountNone(after);
    PromoteAllAppend(before + [items[h]], after);
    PromoteAllAppend(before, [items[h]]);
    assert PromoteAll([items[h]]) == [];
    PromoteAllNoH1(before);
    PromoteAllNoH1(after);
  }

  /** With no level-1 entry, or with two of them, the outline is left as it is. */
  lemma NormalizedOutlineOtherwise(items: seq<OutlineItem>)
    requires (forall i | 0 <= i < |items| :: items[i].level != 1)
      || (exists h, k | 0 <= h < k < |items| :: items[h].level == 1 && items[k].level == 1)
    ensures NormalizedOutline(items) == items
  {
    if forall i | 0 <= i < |items| :: items[i].level != 1 {
      H1CountNone(items);
    } else {
      var h, k :| 0 <= h < k < |items| && items[h].level == 1 && items[k].level == 1;
      assert items == items[..k] + items[k..];
      H1CountAppend(items[..k], items[k..]);
      H1CountAtLeast(items[..k], h);
      H1CountAtLeast(items[k..], 0);
    }
  }
}
