/**
 * The divider decoration of the app's lists (RecyclerViewUtils.kt): which children get a
 * divider drawn below them, the offset that makes room for it, and the decoration's settings.
 */
module RecyclerViewUtils {
  import opened Wrappers

  /** The holder behind a child view: a `DividerViewHolder` with its two flags, or any other holder. */
  datatype ViewHolder = OtherHolder | DividerViewHolder(isDividerAllowedAbove: bool, isDividerAllowedBelow: bool)

  /** A `DividerViewHolder` as constructed: both flags start out `false`. */
  const NewDividerViewHolder: ViewHolder := DividerViewHolder(false, false)

  /** A laid-out child of the list: its holder, its top `y` (already truncated to an Int) and its height. */
  datatype ChildView = ChildView(holder: ViewHolder, y: int, height: int)

  /** The divider drawable; only its intrinsic height matters here. */
  datatype Drawable = Drawable(intrinsicHeight: int)

  /** The bounds a divider is drawn with. */
  datatype Bounds = Bounds(left: int, top: int, right: int, bottom: int)

  /** `android.graphics.Rect`, which `getItemOffsets` fills in place. */
  class Rect {
    var left: int
    var top: int
    var right: int
    var bottom: int

    constructor ()
      ensures left == 0 && top == 0 && right == 0 && bottom == 0
    {
      left, top, right, bottom := 0, 0, 0, 0;
    }
  }

  predicate AllowsBelow(h: ViewHolder)
  {
    h.DividerViewHolder? && h.isDividerAllowedBelow
  }

  predicate AllowsAbove(h: ViewHolder)
  {
    h.DividerViewHolder? && h.isDividerAllowedAbove
  }

  /**
   * `shouldDrawDividerBelow` for the child at `index` of `children`: yes when its own holder allows a
   * divider below; otherwise the next child's holder decides, and below the last child the
   * decoration's `allowDividerAfterLastItem` does.
   */
  function ShouldDrawDividerBelow(children: seq<ChildView>, index: nat, allowDividerAfterLastItem: bool): (r: bool)
    requires index < |children|
    ensures AllowsBelow(children[index].holder) ==> r
    ensures !AllowsBelow(children[index].holder) && index < |children| - 1 ==>
      (r <==> AllowsAbove(children[index + 1].holder))
    ensures !AllowsBelow(children[index].holder) && index == |children| - 1 ==>
      r == allowDividerAfterLastItem
  {
    if AllowsBelow(children[index].holder) then true
    else
      var nextAllowed :=
        if index < |children| - 1 then AllowsAbove(children[index + 1].holder)
        else allowDividerAfterLastItem;
      nextAllowed
  }

  /**
   * The rule the documentation of `DividerViewHolder` states: between two items only when both
   * allow it, and below the last item when that item allows it.
   */
  predicate DocumentedDividerBelow(children: seq<ChildView>, index: nat)
    requires index < |children|
  {
    if index < |children| - 1 then
      AllowsBelow(children[index].holder) && AllowsAbove(children[index + 1].holder)
    else AllowsBelow(children[index].holder)
  }

  /** The code draws a divider everywhere the documented rule asks for one. */
  lemma DocumentedRuleImpliesCode(children: seq<ChildView>, index: nat, allowDividerAfterLastItem: bool)
    requires index < |children|
    ensures DocumentedDividerBelow(children, index) ==> ShouldDrawDividerBelow(children, index, allowDividerAfterLastItem)
  {
  }

  /** ... but not only there: one item that allows a divider below suffices, whatever the next item says. */
  lemma CodeDrawsWhereDocumentationDoesNot()
    ensures var children := [ChildView(DividerViewHolder(false, true), 0, 10), ChildView(OtherHolder, 10, 10)];
      ShouldDrawDividerBelow(children, 0, false) && !DocumentedDividerBelow(children, 0)
  {
  }

  /** With no holder allowing anything and no divider after the last item, no divider is drawn at all. */
  lemma NoFlagsNoDividers(children: seq<ChildView>, index: nat)
    requires index < |children|
    requires forall i :: 0 <= i < |children| ==> children[i].holder in {OtherHolder, NewDividerViewHolder}
    ensures !ShouldDrawDividerBelow(children, index, false)
  {
    if index < |children| - 1 {
      assert children[index + 1].holder in {OtherHolder, NewDividerViewHolder};
    }
  }

  /** Where the divider below a child is drawn: across the list's width, starting at the child's bottom. */
  function BoundsBelow(child: ChildView, width: int, dividerHeight: int): Bounds
  {
    var top := child.y + child.height;
    Bounds(0, top, width, top + dividerHeight)
  }

  /** The dividers `onDrawOver` draws for the first `n` children, in child order. */
  function DividersDrawn(children: seq<ChildView>, n: nat, width: int, dividerHeight: int,
                         allowDividerAfterLastItem: bool): seq<Bounds>
    requires n <= |children|
  {
    if n == 0 then []
    else
      DividersDrawn(children, n - 1, width, dividerHeight, allowDividerAfterLastItem) +
      (if ShouldDrawDividerBelow(children, n - 1, allowDividerAfterLastItem)
       then [BoundsBelow(children[n - 1], width, dividerHeight)] else [])
  }

  /** A divider is drawn exactly below the children the rule selects, at most one per child. */
  lemma {:induction false} DividersDrawnBelowSelected(children: seq<ChildView>, n: nat, width: int,
                                                       dividerHeight: int, allowDividerAfterLastItem: bool)
    requires n <= |children|
    ensures |DividersDrawn(children, n, width, dividerHeight, allowDividerAfterLastItem)| <= n
    ensures forall b :: b in DividersDrawn(children, n, width, dividerHeight, allowDividerAfterLastItem) <==>
      exists i :: 0 <= i < n && ShouldDrawDividerBelow(children, i, allowDividerAfterLastItem) &&
                  b == BoundsBelow(children[i], width, dividerHeight)
    ensures forall b :: b in DividersDrawn(children, n, width, dividerHeight, allowDividerAfterLastItem) ==>
      b.bottom - b.top == dividerHeight
  {
    if n > 0 {
      DividersDrawnBelowSelected(children, n - 1, width, dividerHeight, allowDividerAfterLastItem);
    }
  }

  /** `DividerDecoration`: the divider (unset until `setDivider`), its height, and whether the last item gets one. */
  class DividerDecoration {
    var divider: Option<Drawable>
    var dividerHeight: int
    var allowDividerAfterLastItem: bool

    constructor ()
      ensures divider == None && dividerHeight == 0 && allowDividerAfterLastItem
    {
      divider, dividerHeight, allowDividerAfterLastItem := None, 0, true;
    }

    /** `onDrawOver`: nothing while no divider is set, otherwise a divider below each selected child. */
    method OnDrawOver(children: seq<ChildView>, width: int) returns (drawn: seq<Bounds>)
      ensures divider.None? ==> drawn == []
      ensures divider.Some? ==> drawn == DividersDrawn(children, |children|, width, dividerHeight, allowDividerAfterLastItem)
    {
      drawn := [];
      if divider.None? {
        return;
      }
      for i := 0 to |children|
        invariant drawn == DividersDrawn(children, i, width, dividerHeight, allowDividerAfterLastItem)
      {
        if ShouldDrawDividerBelow(children, i, allowDividerAfterLastItem) {
          var top := children[i].y + children[i].height;
          drawn := drawn + [Bounds(0, top, width, top + dividerHeight)];
        }
      }
    }

    /** `getItemOffsets`: reserves `dividerHeight` below a child that gets a divider, else leaves `outRect` alone. */
    method GetItemOffsets(outRect: Rect, children: seq<ChildView>, index: nat)
      requires index < |children|
      modifies outRect
      ensures outRect.bottom ==
        if ShouldDrawDividerBelow(children, index, allowDividerAfterLastItem) then dividerHeight else old(outRect.bottom)
      ensures outRect.left == old(outRect.left) && outRect.top == old(outRect.top) && outRect.right == old(outRect.right)
    {
      if ShouldDrawDividerBelow(children, index, allowDividerAfterLastItem) {
        outRect.bottom := dividerHeight;
      }
    }

    /** `setDivider`: takes the drawable and its intrinsic height. */
    method SetDivider(d: Drawable)
      modifies this
      ensures divider == Some(d) && dividerHeight == d.intrinsicHeight
      ensures allowDividerAfterLastItem == old(allowDividerAfterLastItem)
    {
      dividerHeight := d.intrinsicHeight;
      divider := Some(d);
    }

    /** `setDividerHeight`: overrides the height, keeping the drawable. */
    method SetDividerHeight(h: int)
      modifies this
      ensures dividerHeight == h
      ensures divider == old(divider) && allowDividerAfterLastItem == old(allowDividerAfterLastItem)
    {
      dividerHeight := h;
    }

    /** `setAllowDividerAfterLastItem`. */
    method SetAllowDividerAfterLastItem(allow: bool)
      modifies this
      ensures allowDividerAfterLastItem == allow
      ensures divider == old(divider) && dividerHeight == old(dividerHeight)
    {
      allowDividerAfterLastItem := allow;
    }
  }

  /** The decoration as the per-app screen configures it: the divider set, and no divider after the
    * last item unless that item's holder allows one. */
  method ConfiguredDecoration(d: Drawable) returns (decoration: DividerDecoration)
    ensures fresh(decoration)
    ensures decoration.divider == Some(d) && decoration.dividerHeight == d.intrinsicHeight
    ensures !decoration.allowDividerAfterLastItem
  {
    decoration := new DividerDecoration();
    decoration.SetDivider(d);
    decoration.SetAllowDividerAfterLastItem(false);
  }
}
