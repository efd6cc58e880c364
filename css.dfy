/** CSS declaration blocks as page/customize.ts builds them: a JavaScript object
    from property names to values, filled one assignment at a time. A block is
    the list of assignments made to it; what the object holds, and the order in
    which `Object.entries` lists it, follow from that list. */
module Css {
  import opened Wrappers

  /** The CSS properties the theme rules set. */
  datatype Prop =
    | WebkitBackdropFilter | BackdropFilter | BackgroundColor | BackgroundImage | BackgroundSize
    | BlockSize | BorderColor | BorderRadius | BorderWidth | BoxShadow | Color | FontFamily
    | FontSize | Gap | InlineSize | LineHeight | Margin | MarginBlockEnd | MarginBlockStart
    | MarginInlineEnd | MarginInlineStart | MinInlineSize | Opacity | PaddingBlockEnd
    | PaddingBlockStart | PaddingInlineEnd | PaddingInlineStart

  function PropText(k: Prop): string
  {
    match k
    case WebkitBackdropFilter => "-webkit-backdrop-filter"
    case BackdropFilter => "backdrop-filter"
    case BackgroundColor => "background-color"
    case BackgroundImage => "background-image"
    case BackgroundSize => "background-size"
    case BlockSize => "block-size"
    case BorderColor => "border-color"
    case BorderRadius => "border-radius"
    case BorderWidth => "border-width"
    case BoxShadow => "box-shadow"
    case Color => "color"
    case FontFamily => "font-family"
    case FontSize => "font-size"
    case Gap => "gap"
    case InlineSize => "inline-size"
    case LineHeight => "line-height"
    case Margin => "margin"
    case MarginBlockEnd => "margin-block-end"
    case MarginBlockStart => "margin-block-start"
    case MarginInlineEnd => "margin-inline-end"
    case MarginInlineStart => "margin-inline-start"
    case MinInlineSize => "min-inline-size"
    case Opacity => "opacity"
    case PaddingBlockEnd => "padding-block-end"
    case PaddingBlockStart => "padding-block-start"
    case PaddingInlineEnd => "padding-inline-end"
    case PaddingInlineStart => "padding-inline-start"
  }

  /** `{}` followed by the assignments `block[key] = value`, oldest first. */
  datatype Block = EmptyBlock | With(prior: Block, key: Prop, value: string)

  /** `{ [key]: value }` */
  function Decl(key: Prop, value: string): Block
  {
    With(EmptyBlock, key, value)
  }

  /** `block[k]`: the value last assigned to `k`. */
  function Lookup(b: Block, k: Prop): Option<string>
  {
    match b
    case EmptyBlock => None
    case With(p, k', v) => if k' == k then Some(v) else Lookup(p, k)
  }

  /** The position of the entry for `k`, or -1. */
  function KeyIndex(es: seq<(Prop, string)>, k: Prop): (i: int)
    ensures -1 <= i < |es|
    ensures i >= 0 ==> es[i].0 == k
    ensures i == -1 <==> forall j :: 0 <= j < |es| ==> es[j].0 != k
  {
    if |es| == 0 then -1
    else if es[|es| - 1].0 == k then |es| - 1
    else KeyIndex(es[..|es| - 1], k)
  }

  /** `Object.entries(block)`: a new key goes last, and assigning a key again
      replaces its value where it stands. */
  function BlockEntries(b: Block): seq<(Prop, string)>
  {
    match b
    case EmptyBlock => []
    case With(p, k, v) =>
      var es := BlockEntries(p);
      var i := KeyIndex(es, k);
      if i < 0 then es + [(k, v)] else es[i := (k, v)]
  }

  function EntryKeys(es: seq<(Prop, string)>): (r: seq<Prop>)
    ensures |r| == |es| && forall i :: 0 <= i < |es| ==> r[i] == es[i].0
  {
    seq(|es|, i requires 0 <= i < |es| => es[i].0)
  }

  /** No property has two entries. */
  ghost predicate DistinctKeys(es: seq<(Prop, string)>)
  {
    forall i, j :: 0 <= i < j < |es| ==> es[i].0 != es[j].0
  }

  /** The entries of `b` list every assigned property exactly once, with the
      value assigned last, and nothing else. */
  ghost predicate EntriesFaithful(b: Block, es: seq<(Prop, string)>)
  {
    DistinctKeys(es)
    && (forall i :: 0 <= i < |es| ==> Lookup(b, es[i].0) == Some(es[i].1))
    && forall k :: Lookup(b, k).Some? <==> KeyIndex(es, k) >= 0
  }

  lemma {:induction false} BlockEntriesSpec(b: Block)
    ensures EntriesFaithful(b, BlockEntries(b))
  {
    match b
    case EmptyBlock =>
    case With(p, k, v) =>
      BlockEntriesSpec(p);
      if KeyIndex(BlockEntries(p), k) < 0 {
        AppendEntry(p, k, v);
      } else {
        ReplaceEntry(p, k, v, KeyIndex(BlockEntries(p), k));
      }
  }

  /** Looking past an entry for another key. */
  lemma KeyIndexSnoc(es: seq<(Prop, string)>, e: (Prop, string), k: Prop)
    requires e.0 != k
    ensures KeyIndex(es + [e], k) == KeyIndex(es, k)
  {
    assert (es + [e])[..|es|] == es;
  }

  /** The step of `BlockEntriesSpec` for a key not yet in the block. */
  lemma AppendEntry(p: Block, k: Prop, v: string)
    requires EntriesFaithful(p, BlockEntries(p))
    requires KeyIndex(BlockEntries(p), k) < 0
    ensures BlockEntries(With(p, k, v)) == BlockEntries(p) + [(k, v)]
    ensures EntriesFaithful(With(p, k, v), BlockEntries(p) + [(k, v)])
  {
    var es := BlockEntries(p);
    var r := es + [(k, v)];
    AppendDistinct(es, (k, v), r);
    AppendLookups(p, k, v, es, r);
    AppendKeys(p, k, v, es, r);
  }

  lemma AppendDistinct(es: seq<(Prop, string)>, e: (Prop, string), r: seq<(Prop, string)>)
    requires DistinctKeys(es) && KeyIndex(es, e.0) < 0 && r == es + [e]
    ensures DistinctKeys(r)
  {
    forall i, j | 0 <= i < j < |r|
      ensures r[i].0 != r[j].0
    {
      assert r[i] == es[i];
      if j < |es| {
        assert r[j] == es[j];
      }
    }
  }

  lemma AppendLookups(p: Block, k: Prop, v: string, es: seq<(Prop, string)>, r: seq<(Prop, string)>)
    requires forall i :: 0 <= i < |es| ==> Lookup(p, es[i].0) == Some(es[i].1)
    requires KeyIndex(es, k) < 0 && r == es + [(k, v)]
    ensures forall i :: 0 <= i < |r| ==> Lookup(With(p, k, v), r[i].0) == Some(r[i].1)
  {
    forall i | 0 <= i < |r|
      ensures Lookup(With(p, k, v), r[i].0) == Some(r[i].1)
    {
      if i < |es| {
        assert r[i] == es[i];
      }
    }
  }

  lemma AppendKeys(p: Block, k: Prop, v: string, es: seq<(Prop, string)>, r: seq<(Prop, string)>)
    requires forall k :: Lookup(p, k).Some? <==> KeyIndex(es, k) >= 0
    requires r == es + [(k, v)]
    ensures forall k' :: Lookup(With(p, k, v), k').Some? <==> KeyIndex(r, k') >= 0
  {
    forall k' | true
      ensures Lookup(With(p, k, v), k').Some? <==> KeyIndex(r, k') >= 0
    {
      if k' != k {
        KeyIndexSnoc(es, (k, v), k');
      }
    }
  }

  /** Replacing an entry by one for the same key keeps every key in place. */
  lemma SameKeysUpdate(es: seq<(Prop, string)>, i: int, e: (Prop, string))
    requires 0 <= i < |es| && es[i].0 == e.0
    ensures forall j :: 0 <= j < |es| ==> es[i := e][j].0 == es[j].0
    ensures DistinctKeys(es) ==> DistinctKeys(es[i := e])
    ensures forall k :: KeyIndex(es[i := e], k) >= 0 <==> KeyIndex(es, k) >= 0
  {
    var r := es[i := e];
    forall k
      ensures KeyIndex(r, k) >= 0 <==> KeyIndex(es, k) >= 0
    {
      if KeyIndex(r, k) >= 0 {
        assert es[KeyIndex(r, k)].0 == k;
      }
      if KeyIndex(es, k) >= 0 {
        assert r[KeyIndex(es, k)].0 == k;
      }
    }
  }

  lemma ReplaceDistinct(es: seq<(Prop, string)>, i: int, e: (Prop, string), r: seq<(Prop, string)>)
    requires DistinctKeys(es) && 0 <= i < |es| && es[i].0 == e.0 && r == es[i := e]
    ensures DistinctKeys(r)
  {
    SameKeysUpdate(es, i, e);
  }

  /** The step of `BlockEntriesSpec` for a key already in the block, at `i`. */
  lemma ReplaceEntry(p: Block, k: Prop, v: string, i: int)
    requires EntriesFaithful(p, BlockEntries(p))
    requires i == KeyIndex(BlockEntries(p), k) && i >= 0
    ensures BlockEntries(With(p, k, v)) == BlockEntries(p)[i := (k, v)]
    ensures EntriesFaithful(With(p, k, v), BlockEntries(p)[i := (k, v)])
  {
    ReplaceFaithful(p, k, v, BlockEntries(p), i, BlockEntries(p)[i := (k, v)]);
  }

  lemma ReplaceFaithful(p: Block, k: Prop, v: string, es: seq<(Prop, string)>, i: int, r: seq<(Prop, string)>)
    requires EntriesFaithful(p, es) && 0 <= i < |es| && es[i].0 == k && r == es[i := (k, v)]
    ensures EntriesFaithful(With(p, k, v), r)
  {
    ReplaceDistinct(es, i, (k, v), r);
    ReplaceLookups(p, k, v, es, i, r);
    ReplaceKeys(p, k, v, es, i, r);
  }

  lemma ReplaceLookups(p: Block, k: Prop, v: string, es: seq<(Prop, string)>, i: int, r: seq<(Prop, string)>)
    requires forall j :: 0 <= j < |es| ==> Lookup(p, es[j].0) == Some(es[j].1)
    requires DistinctKeys(es) && 0 <= i < |es| && es[i].0 == k && r == es[i := (k, v)]
    ensures forall j :: 0 <= j < |r| ==> Lookup(With(p, k, v), r[j].0) == Some(r[j].1)
  {
    forall j | 0 <= j < |r|
      ensures Lookup(With(p, k, v), r[j].0) == Some(r[j].1)
    {
      if j != i {
        assert r[j] == es[j];
        assert es[j].0 != k by {
          if j < i {
            assert es[j].0 != es[i].0;
          } else {
            assert es[i].0 != es[j].0;
          }
        }
      }
    }
  }

  lemma ReplaceKeys(p: Block, k: Prop, v: string, es: seq<(Prop, string)>, i: int, r: seq<(Prop, string)>)
    requires forall k :: Lookup(p, k).Some? <==> KeyIndex(es, k) >= 0
    requires 0 <= i < |es| && es[i].0 == k && r == es[i := (k, v)]
    ensures forall k' :: Lookup(With(p, k, v), k').Some? <==> KeyIndex(r, k') >= 0
  {
    SameKeysUpdate(es, i, (k, v));
    assert KeyIndex(es, k) >= 0;
  }

  /** A key assigned for the first time goes after the entries so far, and a
      block with any assignment has an entry. */
  lemma EntriesWithNew(p: Block, k: Prop, v: string)
    requires Lookup(p, k).None?
    ensures BlockEntries(With(p, k, v)) == BlockEntries(p) + [(k, v)]
    ensures p.With? ==> |BlockEntries(p)| >= 1
  {
    BlockEntriesSpec(p);
    if p.With? {
      assert Lookup(p, p.key).Some?;
    }
  }

  /** Assignment keeps the key order of `Object.entries`, except that a key
      never assigned before goes last. */
  lemma EntryKeysWith(p: Block, k: Prop, v: string)
    ensures EntryKeys(BlockEntries(With(p, k, v))) ==
      if Lookup(p, k).Some? then EntryKeys(BlockEntries(p)) else EntryKeys(BlockEntries(p)) + [k]
  {
    LookupIndex(p, k);
    var es := BlockEntries(p);
    if Lookup(p, k).Some? {
      EntryKeysUpdate(es, KeyIndex(es, k), (k, v));
    } else {
      EntryKeysSnoc(es, (k, v));
    }
  }

  /** A property has a value exactly when it has an entry. */
  lemma LookupIndex(b: Block, k: Prop)
    ensures Lookup(b, k).Some? <==> KeyIndex(BlockEntries(b), k) >= 0
  {
    BlockEntriesSpec(b);
  }

  lemma EntryKeysUpdate(es: seq<(Prop, string)>, i: int, e: (Prop, string))
    requires 0 <= i < |es| && es[i].0 == e.0
    ensures EntryKeys(es[i := e]) == EntryKeys(es)
  {
  }

  lemma EntryKeysSnoc(es: seq<(Prop, string)>, e: (Prop, string))
    ensures EntryKeys(es + [e]) == EntryKeys(es) + [e.0]
  {
  }
}
