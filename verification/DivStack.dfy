/** Open divs while scanning lines: which of them a closing fence ends. */
module DivStack {
  import opened Wrappers

  /** An open div as its fence line gave it. */
  datatype Div = Div(width: nat, depth: nat, start: nat, itemColumn: Option<nat>, itemDepth: nat)

  /** What is found out about a line before the open divs are looked at. */
  datatype Line = Line(depth: nat, indent: nat, blank: bool, previousBlank: bool, startsItem: bool, blockStart: bool,
      fence: Option<Fence>, offset: nat, itemColumn: Option<nat>)

  /** A line of colons: `bare` if nothing follows them, `visible` if no construct hides it. */
  datatype Fence = Fence(width: nat, bodyDepth: nat, bare: bool, visible: bool, canOpen: bool)

  /** The line has left the block quote or the list item that the div was opened in. */
  predicate Leaves(line: Line, depth: nat, itemColumn: Option<nat>, itemDepth: nat) {
    || (line.depth < depth && (line.blank || line.previousBlank || line.startsItem || line.blockStart))
    || (itemColumn.Some? && line.depth == itemDepth && line.indent < itemColumn.value && !line.blank &&
        (line.previousBlank || line.startsItem || line.blockStart))
  }

  // ----- The simple form: a list of divs and a linear scan

  /** The divs that stay open when a line leaves quotes or items. */
  function Remaining(divs: seq<Div>, line: Line): (r: seq<Div>)
    ensures r <= divs
  {
    if divs == [] then []
    else
      var top := divs[|divs| - 1];
      if Leaves(line, top.depth, top.itemColumn, top.itemDepth) then Remaining(divs[..|divs| - 1], line) else divs
  }

  /** Where the divs begin that were opened one in the other at the depth of the innermost. */
  function ScopeStart(divs: seq<Div>): (r: nat)
    requires divs != []
    ensures r < |divs| && forall i :: r <= i < |divs| ==> divs[i].depth == divs[|divs| - 1].depth
    ensures r > 0 ==> divs[r - 1].depth != divs[|divs| - 1].depth
  {
    var n := |divs| - 1;
    if n > 0 && divs[n - 1].depth == divs[n].depth then ScopeStart(divs[..n]) else n
  }

  /** The first div from `i` on that is no wider than the closing fence. */
  function FirstFitting(divs: seq<Div>, width: nat, i: nat): (r: Option<nat>)
    requires i <= |divs|
    ensures r.Some? ==>
      i <= r.value < |divs| && divs[r.value].width <= width && forall j :: i <= j < r.value ==> divs[j].width > width
    ensures r.None? ==> forall j :: i <= j < |divs| ==> divs[j].width > width
    decreases |divs| - i
  {
    if i == |divs| then None else if divs[i].width <= width then Some(i) else FirstFitting(divs, width, i + 1)
  }

  /** The div a fence closes: the outermost of its scope that is no wider. */
  function Closed(divs: seq<Div>, fence: Fence): Option<nat> {
    if divs == [] || !fence.bare || !fence.visible || divs[|divs| - 1].depth != fence.bodyDepth then None
    else FirstFitting(divs, fence.width, ScopeStart(divs))
  }

  /** The starts of the divs from `i` on, innermost first. */
  function Starts(divs: seq<Div>, i: nat): (r: seq<nat>)
    requires i <= |divs|
    ensures |r| == |divs| - i && forall k :: 0 <= k < |r| ==> r[k] == divs[|divs| - 1 - k].start
    decreases |divs| - i
  {
    if i == |divs| then [] else Starts(divs, i + 1) + [divs[i].start]
  }

  function Opened(fence: Fence, line: Line): Div {
    Div(fence.width, fence.bodyDepth, line.offset, line.itemColumn, line.depth)
  }

  /** What a line does to the open divs, and which of them it closes. */
  function Step(divs: seq<Div>, line: Line): (seq<Div>, seq<nat>) {
    var open := Remaining(divs, line);
    match line.fence
    case None => (open, [])
    case Some(fence) =>
      var closed := Closed(open, fence);
      if closed.Some? then (open[..closed.value], Starts(open, closed.value))
      else if fence.visible && fence.canOpen then (open + [Opened(fence, line)], [])
      else (open, [])
  }

  // ----- The fast form: running minima and a binary search

  datatype DivOwner = DivOwner(minimumWidth: nat, scopeStart: nat, start: nat, depth: nat, itemColumn: Option<nat>,
    itemDepth: nat)

  /** An owner keeps, instead of its own width, the smallest width of its scope so far. */
  ghost predicate OwnerAt(owners: seq<DivOwner>, divs: seq<Div>, i: nat)
    requires i < |owners| == |divs|
  {
    var owner, div := owners[i], divs[i];
    && owner.start == div.start && owner.depth == div.depth && owner.itemColumn == div.itemColumn &&
      owner.itemDepth == div.itemDepth
    && (if i > 0 && divs[i - 1].depth == div.depth
        then owner.scopeStart == owners[i - 1].scopeStart &&
             owner.minimumWidth == if owners[i - 1].minimumWidth < div.width
               then owners[i - 1].minimumWidth else div.width
        else owner.scopeStart == i && owner.minimumWidth == div.width)
  }

  ghost predicate Represents(owners: seq<DivOwner>, divs: seq<Div>) {
    |owners| == |divs| && forall i {:trigger OwnerAt(owners, divs, i)} :: 0 <= i < |owners| ==> OwnerAt(owners, divs, i)
  }

  lemma {:induction false} RepresentsPrefix(owners: seq<DivOwner>, divs: seq<Div>, n: nat)
    requires Represents(owners, divs) && n <= |owners|
    ensures Represents(owners[..n], divs[..n])
  {
    forall i {:trigger OwnerAt(owners[..n], divs[..n], i)} | 0 <= i < n ensures OwnerAt(owners[..n], divs[..n], i) {
      assert OwnerAt(owners, divs, i);
    }
  }

  lemma {:induction false} OneMoreOwner(owners: seq<DivOwner>, divs: seq<Div>, owner: DivOwner, div: Div)
    requires Represents(owners, divs) && OwnerAt(owners + [owner], divs + [div], |owners|)
    ensures Represents(owners + [owner], divs + [div])
  {
    forall i {:trigger OwnerAt(owners + [owner], divs + [div], i)} | 0 <= i < |owners|
      ensures OwnerAt(owners + [owner], divs + [div], i) {
      assert OwnerAt(owners, divs, i);
    }
  }

  lemma {:induction false} ScopeIs(owners: seq<DivOwner>, divs: seq<Div>, n: nat)
    requires Represents(owners, divs) && n < |owners|
    ensures owners[n].scopeStart == ScopeStart(divs[..n + 1])
  {
    assert OwnerAt(owners, divs, n);
    assert divs[..n + 1][..n] == divs[..n];
    if n > 0 { ScopeIs(owners, divs, n - 1); }
  }

  /** Within a scope the running minimum is the least width so far, so it never grows. */
  lemma {:induction false} MinimumIs(owners: seq<DivOwner>, divs: seq<Div>, n: nat)
    requires Represents(owners, divs) && n < |owners|
    ensures owners[n].scopeStart <= n
    ensures forall j :: owners[n].scopeStart <= j <= n ==> owners[n].minimumWidth <= divs[j].width
    ensures exists j :: owners[n].scopeStart <= j <= n && owners[n].minimumWidth == divs[j].width
  {
    assert OwnerAt(owners, divs, n);
    if n > 0 { MinimumIs(owners, divs, n - 1); }
  }

  lemma {:induction false} SameScope(owners: seq<DivOwner>, divs: seq<Div>, m: nat, n: nat)
    requires Represents(owners, divs) && n < |owners| && owners[n].scopeStart <= m <= n
    ensures owners[m].scopeStart == owners[n].scopeStart && owners[m].minimumWidth >= owners[n].minimumWidth
    decreases n - m
  {
    assert OwnerAt(owners, divs, n);
    if m < n { SameScope(owners, divs, m, n - 1); }
  }

  /** The first owner whose running minimum fits is the first div that fits. */
  lemma {:induction false} FittingIs(owners: seq<DivOwner>, divs: seq<Div>, width: nat, low: nat)
    requires Represents(owners, divs) && owners != []
    requires var from := owners[|owners| - 1].scopeStart;
      from <= low < |owners| && owners[low].minimumWidth <= width &&
        (low > from ==> owners[low - 1].minimumWidth > width)
    ensures ScopeStart(divs) <= low && FirstFitting(divs, width, ScopeStart(divs)) == Some(low)
  {
    var top := |owners| - 1;
    assert divs[..top + 1] == divs;
    ScopeIs(owners, divs, top);
    SameScope(owners, divs, low, top);
    MinimumIs(owners, divs, low);
    if low > owners[top].scopeStart {
      SameScope(owners, divs, low - 1, top);
      MinimumIs(owners, divs, low - 1);
    }
  }

  /** A fence is wide enough for the innermost owner exactly when it fits some div of the scope. */
  lemma {:induction false} FitsIff(owners: seq<DivOwner>, divs: seq<Div>, width: nat)
    requires Represents(owners, divs) && owners != []
    ensures owners[|owners| - 1].minimumWidth <= width <==> FirstFitting(divs, width, ScopeStart(divs)).Some?
  {
    var top := |owners| - 1;
    assert divs[..top + 1] == divs;
    ScopeIs(owners, divs, top);
    MinimumIs(owners, divs, top);
  }

  lemma {:induction false} LeaveTop(divs: seq<Div>, line: Line, n: nat)
    requires 0 < n <= |divs|
    ensures var top := divs[n - 1];
      Remaining(divs[..n], line) == if Leaves(line, top.depth, top.itemColumn, top.itemDepth)
        then Remaining(divs[..n - 1], line) else divs[..n]
  {
    assert divs[..n][..n - 1] == divs[..n - 1];
  }

  /** The stack of open divs. */
  class Divs {
    var owners: seq<DivOwner>
    ghost var divs: seq<Div>

    ghost predicate Valid()
      reads this
    {
      Represents(owners, divs)
    }

    constructor ()
      ensures Valid() && divs == []
    {
      owners, divs := [], [];
    }

    /** Drops the divs whose quote or item the line has left. */
    method Leave(line: Line)
      requires Valid()
      modifies this
      ensures Valid() && divs == Remaining(old(divs), line)
    {
      assert divs[..|divs|] == divs;
      while owners != []
        invariant Valid() && divs <= old(divs) && Remaining(divs, line) == Remaining(old(divs), line)
        decreases |owners|
      {
        var owner := owners[|owners| - 1];
        assert OwnerAt(owners, divs, |owners| - 1);
        if !Leaves(line, owner.depth, owner.itemColumn, owner.itemDepth) { break; }
        RepresentsPrefix(owners, divs, |owners| - 1);
        owners, divs := owners[..|owners| - 1], divs[..|divs| - 1];
      }
    }

    /** The outermost owner of the innermost scope that a fence of this width closes. */
    method Search(width: nat) returns (low: nat)
      requires Valid() && owners != [] && owners[|owners| - 1].minimumWidth <= width
      ensures ScopeStart(divs) <= low < |owners| && FirstFitting(divs, width, ScopeStart(divs)) == Some(low)
    {
      var top := |owners| - 1;
      low := owners[top].scopeStart;
      var high := top;
      MinimumIs(owners, divs, top);
      while low < high
        invariant owners[top].scopeStart <= low <= high <= top && owners[high].minimumWidth <= width
        invariant low > owners[top].scopeStart ==> owners[low - 1].minimumWidth > width
      {
        var mid := (low + high) / 2;
        if owners[mid].minimumWidth <= width { high := mid; } else { low := mid + 1; }
      }
      FittingIs(owners, divs, width, low);
    }

    /** Closes what the fence closes, and gives the starts of the closed divs, innermost first. */
    method Close(width: nat) returns (closers: seq<nat>)
      requires Valid() && owners != [] && owners[|owners| - 1].minimumWidth <= width
      modifies this
      ensures Valid()
      ensures var low := FirstFitting(old(divs), width, ScopeStart(old(divs)));
        low.Some? && divs == old(divs)[..low.value] && closers == Starts(old(divs), low.value)
    {
      var low := Search(width);
      closers := [];
      for i := |owners| downto low
        invariant closers == Starts(divs, i)
      {
        assert OwnerAt(owners, divs, i);
        closers := closers + [owners[i].start];
      }
      RepresentsPrefix(owners, divs, low);
      owners, divs := owners[..low], divs[..low];
    }

    method Open(fence: Fence, line: Line)
      requires Valid()
      modifies this
      ensures Valid() && divs == old(divs) + [Opened(fence, line)]
    {
      var inner := owners != [] && owners[|owners| - 1].depth == fence.bodyDepth;
      var minimum, scopeStart := fence.width, |owners|;
      if inner {
        var owner := owners[|owners| - 1];
        minimum, scopeStart := if owner.minimumWidth < fence.width
          then owner.minimumWidth else fence.width, owner.scopeStart;
      }
      var owner := DivOwner(minimum, scopeStart, line.offset, fence.bodyDepth, line.itemColumn, line.depth);
      if owners != [] { assert OwnerAt(owners, divs, |owners| - 1); }
      OneMoreOwner(owners, divs, owner, Opened(fence, line));
      owners, divs := owners + [owner], divs + [Opened(fence, line)];
    }

    /** One line: it may leave quotes and items, and then close or open divs. */
    method Scan(line: Line) returns (closers: seq<nat>)
      requires Valid()
      modifies this
      ensures Valid() && (divs, closers) == Step(old(divs), line)
    {
      Leave(line);
      closers := [];
      if line.fence.Some? {
        var fence := line.fence.value;
        if owners != [] { FitsIff(owners, divs, fence.width); assert OwnerAt(owners, divs, |owners| - 1); }
        if owners != [] && fence.visible && fence.bare && fence.bodyDepth == owners[|owners| - 1].depth &&
          fence.width >= owners[|owners| - 1].minimumWidth {
          closers := Close(fence.width);
        } else if fence.visible && fence.canOpen {
          Open(fence, line);
        }
      }
    }

    /** Over a whole document the fast stack closes the same divs on the same lines as the simple list. */
    method ScanAll(lines: seq<Line>) returns (closers: seq<seq<nat>>)
      requires Valid()
      modifies this
      ensures Valid() && (divs, closers) == Run(old(divs), lines)
    {
      closers := [];
      for i := 0 to |lines|
        invariant Valid() && (divs, closers) == Run(old(divs), lines[..i])
      {
        assert lines[..i + 1][..i] == lines[..i];
        var closed := Scan(lines[i]);
        closers := closers + [closed];
      }
      assert lines[..|lines|] == lines;
    }
  }

  /** The simple form over all lines. */
  function Run(divs: seq<Div>, lines: seq<Line>): (seq<Div>, seq<seq<nat>>) {
    if lines == [] then (divs, [])
    else
      var (open, closers) := Run(divs, lines[..|lines| - 1]);
      var (next, closed) := Step(open, lines[|lines| - 1]);
      (next, closers + [closed])
  }

  // ----- What closing means

  /** A fence closes the outermost fitting div, everything inside it, and nothing around it. */
  lemma {:induction false} ClosesOutermost(divs: seq<Div>, line: Line)
    requires line.fence.Some? && Closed(Remaining(divs, line), line.fence.value).Some?
    ensures var open, fence := Remaining(divs, line), line.fence.value;
      var i := Closed(open, fence).value;
      && open[i].depth == fence.bodyDepth && open[i].width <= fence.width
      && (forall j ::
        0 <= j < i && (forall k :: j <= k < |open| ==> open[k].depth == fence.bodyDepth) ==>
        open[j].width > fence.width)
      && Step(divs, line).0 == open[..i] && |Step(divs, line).1| == |open| - i
      && forall k :: 0 <= k < |open| - i ==> Step(divs, line).1[k] == open[|open| - 1 - k].start
  {
  }
}
