/** XAOverrides.js, on values: Backbone.Picky's multiple selection, and the row and header cells
    of a Backgrid grid that keep a second record of it. */
module Selection {
  import opened Wrappers

  // ---- Picky: a collection and its models ----------------------------------

  /** The models' `selected` flags, the ids in the collection's `selected`, and its
      `selectedLength` once computed. */
  datatype Picked = Picked(on: seq<bool>, ids: set<string>, length: Option<nat>)

  /** `calculateSelectedLength` */
  function Counted(p: Picked): Picked { p.(length := Some(|p.ids|)) }

  /** `Selectable.select`: model and collection tell each other once. */
  function ModelSelect(ids: seq<string>, p: Picked, i: nat): Picked
    requires i < |ids| == |p.on|
  {
    if p.on[i] then p
    else
      var q := p.(on := p.on[i := true]);
      if ids[i] in p.ids then q else Counted(q.(ids := q.ids + {ids[i]}))
  }

  function ModelDeselect(ids: seq<string>, p: Picked, i: nat): Picked
    requires i < |ids| == |p.on|
  {
    if !p.on[i] then p
    else
      var q := p.(on := p.on[i := false]);
      if ids[i] !in p.ids then q else Counted(q.(ids := q.ids - {ids[i]}))
  }

  /** `MultiSelect.select` */
  function CollectionSelect(ids: seq<string>, p: Picked, i: nat): Picked
    requires i < |ids| == |p.on|
  {
    if ids[i] in p.ids then p else Counted(p.(on := p.on[i := true], ids := p.ids + {ids[i]}))
  }

  function CollectionDeselect(ids: seq<string>, p: Picked, i: nat): Picked
    requires i < |ids| == |p.on|
  {
    if ids[i] !in p.ids then p else Counted(p.(on := p.on[i := false], ids := p.ids - {ids[i]}))
  }

  // The collection's methods as they run: file the model, tell it, count.
  lemma CollectionSelectRuns(ids: seq<string>, p: Picked, i: nat)
    requires i < |ids| == |p.on|
    ensures CollectionSelect(ids, p, i) ==
            if ids[i] in p.ids then p else Counted(ModelSelect(ids, p.(ids := p.ids + {ids[i]}), i))
  {
    assert p.on[i] ==> p.on[i := true] == p.on;
  }

  lemma CollectionDeselectRuns(ids: seq<string>, p: Picked, i: nat)
    requires i < |ids| == |p.on|
    ensures CollectionDeselect(ids, p, i) ==
            if ids[i] !in p.ids then p else Counted(ModelDeselect(ids, p.(ids := p.ids - {ids[i]}), i))
  {
    assert !p.on[i] ==> p.on[i := false] == p.on;
  }

  function SelectFirst(ids: seq<string>, p: Picked, n: nat): (q: Picked)
    requires n <= |ids| == |p.on|
    ensures |q.on| == |p.on|
  {
    if n == 0 then p else ModelSelect(ids, SelectFirst(ids, p, n - 1), n - 1)
  }

  function DeselectFirst(ids: seq<string>, p: Picked, n: nat): (q: Picked)
    requires n <= |ids| == |p.on|
    ensures |q.on| == |p.on|
  {
    if n == 0 then p else ModelDeselect(ids, DeselectFirst(ids, p, n - 1), n - 1)
  }

  function SelectAll(ids: seq<string>, p: Picked): Picked
    requires |ids| == |p.on|
  {
    Counted(SelectFirst(ids, p, |ids|))
  }

  function SelectNone(ids: seq<string>, p: Picked): Picked
    requires |ids| == |p.on|
  {
    if p.length == Some(0) then p else Counted(DeselectFirst(ids, p, |ids|))
  }

  function ToggleSelectAll(ids: seq<string>, p: Picked): Picked
    requires |ids| == |p.on|
  {
    if p.length == Some(|ids|) then SelectNone(ids, p) else SelectAll(ids, p)
  }

  /** Model and collection agree on what is selected, and the length is right once computed. */
  ghost predicate Agree(ids: seq<string>, p: Picked) {
    && |p.on| == |ids|
    && (forall i | 0 <= i < |ids| :: p.on[i] <==> ids[i] in p.ids)
    && (forall k :: k in p.ids ==> k in ids)
    && p.length == (if p.length.Some? || p.ids != {} then Some(|p.ids|) else None)
  }

  ghost predicate Distinct(ids: seq<string>) {
    forall i, j | 0 <= i < j < |ids| :: ids[i] != ids[j]
  }

  predicate AllOn(on: seq<bool>) { forall i | 0 <= i < |on| :: on[i] }

  /** One call on the collection or on one of its models. */
  datatype PickyOp =
    | SelectModel(i: nat) | DeselectModel(i: nat) | ToggleModel(i: nat)
    | SelectInCollection(i: nat) | DeselectInCollection(i: nat)
    | All | Nothing | ToggleAll

  predicate PickyAllowed(n: nat, op: PickyOp) {
    match op
    case All => true
    case Nothing => true
    case ToggleAll => true
    case _ => op.i < n
  }

  function PickyStep(ids: seq<string>, p: Picked, op: PickyOp): Picked
    requires |p.on| == |ids| && PickyAllowed(|ids|, op)
  {
    match op
    case SelectModel(i) => ModelSelect(ids, p, i)
    case DeselectModel(i) => ModelDeselect(ids, p, i)
    case ToggleModel(i) => if p.on[i] then ModelDeselect(ids, p, i) else ModelSelect(ids, p, i)
    case SelectInCollection(i) => CollectionSelect(ids, p, i)
    case DeselectInCollection(i) => CollectionDeselect(ids, p, i)
    case All => SelectAll(ids, p)
    case Nothing => SelectNone(ids, p)
    case ToggleAll => ToggleSelectAll(ids, p)
  }

  /** Under agreement a call on the model and a call on the collection do the same: exactly one
      flag is set or cleared, and the collection follows. */
  lemma OneFlag(ids: seq<string>, p: Picked, i: nat)
    requires Distinct(ids) && Agree(ids, p) && i < |ids|
    ensures Agree(ids, ModelSelect(ids, p, i)) && ModelSelect(ids, p, i).on == p.on[i := true]
    ensures Agree(ids, ModelDeselect(ids, p, i)) && ModelDeselect(ids, p, i).on == p.on[i := false]
    ensures CollectionSelect(ids, p, i) == ModelSelect(ids, p, i)
    ensures CollectionDeselect(ids, p, i) == ModelDeselect(ids, p, i)
  {
    OneSelected(ids, p, i);
    OneDeselected(ids, p, i);
  }

  lemma OneSelected(ids: seq<string>, p: Picked, i: nat)
    requires Distinct(ids) && Agree(ids, p) && i < |ids|
    ensures Agree(ids, ModelSelect(ids, p, i)) && ModelSelect(ids, p, i).on == p.on[i := true]
  {}

  lemma OneDeselected(ids: seq<string>, p: Picked, i: nat)
    requires Distinct(ids) && Agree(ids, p) && i < |ids|
    ensures Agree(ids, ModelDeselect(ids, p, i)) && ModelDeselect(ids, p, i).on == p.on[i := false]
  {}

  lemma {:induction false} FirstSelected(ids: seq<string>, p: Picked, n: nat)
    requires Distinct(ids) && Agree(ids, p) && n <= |ids| == |p.on|
    ensures Agree(ids, SelectFirst(ids, p, n))
    ensures forall i | 0 <= i < |ids| :: SelectFirst(ids, p, n).on[i] <==> i < n || p.on[i]
  {
    hide Agree, Distinct, ModelSelect, ModelDeselect, CollectionSelect, CollectionDeselect;
    if n > 0 {
      FirstSelected(ids, p, n - 1);
      OneFlag(ids, SelectFirst(ids, p, n - 1), n - 1);
    }
  }

  lemma {:induction false} FirstDeselected(ids: seq<string>, p: Picked, n: nat)
    requires Distinct(ids) && Agree(ids, p) && n <= |ids| == |p.on|
    ensures Agree(ids, DeselectFirst(ids, p, n))
    ensures forall i | 0 <= i < |ids| :: DeselectFirst(ids, p, n).on[i] <==> i >= n && p.on[i]
  {
    hide Agree, Distinct, ModelSelect, ModelDeselect, CollectionSelect, CollectionDeselect;
    if n > 0 {
      FirstDeselected(ids, p, n - 1);
      OneFlag(ids, DeselectFirst(ids, p, n - 1), n - 1);
    }
  }

  lemma {:induction false} IdCount(ids: seq<string>)
    requires Distinct(ids)
    ensures |set k | k in ids| == |ids|
  {
    if ids != [] {
      var n := |ids| - 1;
      IdCount(ids[..n]);
      assert (set k | k in ids) == (set k | k in ids[..n]) + {ids[n]};
      assert ids[n] !in ids[..n];
    }
  }

  lemma SubsetOfSize(a: set<string>, b: set<string>)
    requires a <= b && |a| == |b|
    ensures a == b
  {
    assert |b - a| == |b| - |a|;
  }

  // The size of a set of keys says whether all of them are there.
  lemma AllOnIff(ids: seq<string>, on: seq<bool>, s: set<string>)
    requires Distinct(ids) && |on| == |ids|
    requires forall i | 0 <= i < |ids| :: on[i] <==> ids[i] in s
    requires forall k :: k in s ==> k in ids
    ensures |s| == |ids| <==> AllOn(on)
  {
    var every := set k | k in ids;
    IdCount(ids);
    if |s| == |ids| {
      SubsetOfSize(s, every);
      assert forall i | 0 <= i < |ids| :: ids[i] in every;
    }
    if AllOn(on) {
      assert s == every;
    }
  }

  /** `toggleSelectAll` selects everything unless everything was selected, then nothing. */
  lemma ToggleSelectAllMeaning(ids: seq<string>, p: Picked)
    requires Distinct(ids) && Agree(ids, p)
    ensures Agree(ids, ToggleSelectAll(ids, p))
    ensures forall i | 0 <= i < |ids| :: ToggleSelectAll(ids, p).on[i] <==> !AllOn(p.on)
  {
    AllOnIff(ids, p.on, p.ids);
    FirstSelected(ids, p, |ids|);
    FirstDeselected(ids, p, |ids|);
  }

  /** What each call leaves selected. The length is right after every call that changes something,
      and after selecting or deselecting all. */
  lemma PickyEffect(ids: seq<string>, p: Picked, op: PickyOp)
    requires Distinct(ids) && Agree(ids, p) && PickyAllowed(|ids|, op)
    ensures var q := PickyStep(ids, p, op);
      && Agree(ids, q)
      && (op.SelectModel? || op.SelectInCollection? ==> q.on == p.on[op.i := true])
      && (op.DeselectModel? || op.DeselectInCollection? ==> q.on == p.on[op.i := false])
      && (op.ToggleModel? ==> q.on == p.on[op.i := !p.on[op.i]])
      && (op.All? ==> forall i | 0 <= i < |ids| :: q.on[i])
      && (op.Nothing? ==> q.ids == {} && forall i | 0 <= i < |ids| :: !q.on[i])
      && (op.ToggleAll? ==> forall i | 0 <= i < |ids| :: q.on[i] <==> exists j :: 0 <= j < |ids| && !p.on[j])
      && (op.All? || op.Nothing? || op.ToggleAll? || q.on != p.on ==> q.length == Some(|q.ids|))
  {
    PickyStepAgrees(ids, p, op);
    match op
    case All => FirstSelected(ids, p, |ids|);
    case Nothing => NothingLeft(ids, p);
    case ToggleAll => ToggleSelectAllMeaning(ids, p); ToggleCounts(ids, p);
    case _ => OneFlag(ids, p, op.i); OneCounted(ids, p, op.i);
  }

  lemma NothingLeft(ids: seq<string>, p: Picked)
    requires Distinct(ids) && Agree(ids, p)
    ensures var q := SelectNone(ids, p);
      q.ids == {} && q.length == Some(0) && forall i | 0 <= i < |ids| :: !q.on[i]
  {
    FirstDeselected(ids, p, |ids|);
    var q := SelectNone(ids, p);
    assert forall k :: k in q.ids ==> k !in ids;
  }

  lemma ToggleCounts(ids: seq<string>, p: Picked)
    requires Distinct(ids) && Agree(ids, p)
    ensures var q := ToggleSelectAll(ids, p); q.length == Some(|q.ids|)
  {
    NothingLeft(ids, p);
  }

  lemma OneCounted(ids: seq<string>, p: Picked, i: nat)
    requires Distinct(ids) && Agree(ids, p) && i < |ids|
    ensures !p.on[i] ==> ModelSelect(ids, p, i).length == Some(|ModelSelect(ids, p, i).ids|)
    ensures p.on[i] ==> ModelDeselect(ids, p, i).length == Some(|ModelDeselect(ids, p, i).ids|)
    ensures p.on[i] ==> ModelSelect(ids, p, i) == p
    ensures !p.on[i] ==> ModelDeselect(ids, p, i) == p
  {}

  lemma PickyStepAgrees(ids: seq<string>, p: Picked, op: PickyOp)
    requires Distinct(ids) && Agree(ids, p) && PickyAllowed(|ids|, op)
    ensures Agree(ids, PickyStep(ids, p, op))
  {
    FirstSelected(ids, p, |ids|);
    FirstDeselected(ids, p, |ids|);
    if op.ToggleAll? {
      ToggleSelectAllMeaning(ids, p);
    } else if !op.All? && !op.Nothing? {
      OneFlag(ids, p, op.i);
    }
  }

  function PickyRun(ids: seq<string>, p: Picked, ops: seq<PickyOp>): (q: Picked)
    requires |p.on| == |ids| && forall i | 0 <= i < |ops| :: PickyAllowed(|ids|, ops[i])
    ensures |q.on| == |ids|
  {
    if ops == [] then p
    else PickyStep(ids, PickyRun(ids, p, ops[..|ops| - 1]), ops[|ops| - 1])
  }

  /** Nothing selected, no length computed. */
  function Unpicked(n: nat): Picked { Picked(seq(n, i => false), {}, None) }

  lemma {:induction false} PickyRunAgrees(ids: seq<string>, ops: seq<PickyOp>)
    requires Distinct(ids) && forall i | 0 <= i < |ops| :: PickyAllowed(|ids|, ops[i])
    ensures Agree(ids, PickyRun(ids, Unpicked(|ids|), ops))
  {
    if ops != [] {
      PickyRunAgrees(ids, ops[..|ops| - 1]);
      PickyStepAgrees(ids, PickyRun(ids, Unpicked(|ids|), ops[..|ops| - 1]), ops[|ops| - 1]);
    }
  }

  // ---- the grid ------------------------------------------------------------

  /** The models of the page: the keys the collection files them under (`id`), and the keys the
      header files them under (`id || cid`). */
  datatype Page = Page(ids: seq<string>, marks: seq<string>)

  /** The four records of one fact, and the header's checkbox. */
  datatype Grid = Grid(picked: Picked, rows: seq<bool>, marked: set<string>, header: bool)

  ghost predicate Fits(page: Page, g: Grid) {
    |page.ids| == |page.marks| == |g.picked.on| == |g.rows|
  }

  /** The header's listener for `backgrid:selected`. */
  function Selected(page: Page, g: Grid, i: nat, on: bool): Grid
    requires i < |page.marks|
  {
    var marked := if on then g.marked + {page.marks[i]} else g.marked - {page.marks[i]};
    g.(marked := marked, header := |marked| == |page.marks| || (on && g.header))
  }

  function Told(ids: seq<string>, p: Picked, i: nat, on: bool): Picked
    requires i < |ids| == |p.on|
  {
    if on then ModelSelect(ids, p, i) else ModelDeselect(ids, p, i)
  }

  /** `SelectRowCell.onChange` */
  function RowOnChange(page: Page, g: Grid, i: nat): Grid
    requires Fits(page, g) && i < |g.rows|
  {
    Selected(page, g.(picked := Told(page.ids, g.picked, i, g.rows[i])), i, g.rows[i])
  }

  /** The row's listener for `backgrid:select`. */
  function Select(page: Page, g: Grid, i: nat, on: bool): (h: Grid)
    requires Fits(page, g) && i < |g.rows|
    ensures Fits(page, h)
  {
    RowOnChange(page, g.(rows := g.rows[i := on]), i)
  }

  function SelectList(page: Page, g: Grid, on: bool, order: seq<nat>): (h: Grid)
    requires Fits(page, g) && forall k | 0 <= k < |order| :: order[k] < |g.rows|
    ensures Fits(page, h)
  {
    if order == [] then g
    else Select(page, SelectList(page, g, on, order[..|order| - 1]), order[|order| - 1], on)
  }

  lemma SelectListNone(page: Page, g: Grid, on: bool)
    requires Fits(page, g)
    ensures SelectList(page, g, on, []) == g
  {}

  lemma SelectListSnoc(page: Page, g: Grid, on: bool, order: seq<nat>, i: nat)
    requires Fits(page, g) && i < |g.rows| && forall k | 0 <= k < |order| :: order[k] < |g.rows|
    ensures |SelectList(page, g, on, order).rows| == |g.rows|
    ensures SelectList(page, g, on, order + [i]) == Select(page, SelectList(page, g, on, order), i, on)
  {
    hide Select;
    assert (order + [i])[..|order + [i]| - 1] == order;
  }

  function UpTo(n: nat): seq<nat> { seq(n, i => i) }

  /** The body re-rendered its rows; the header restores the first n. */
  function Refreshed(page: Page, g: Grid, checked: bool, n: nat): (h: Grid)
    requires Fits(page, g) && n <= |g.rows|
    ensures Fits(page, h)
  {
    if n == 0 then g.(rows := seq(|g.rows|, i => false))
    else
      var h := Refreshed(page, g, checked, n - 1);
      if checked || page.marks[n - 1] in h.marked then Select(page, h, n - 1, true) else h
  }

  /** A click on a row or on the header, `clearSelectedModels` (which visits the marked models in
      the given order), or a refresh of the body. */
  datatype GridOp = ToggleRow(i: nat) | ToggleHeader | ClearSelected(order: seq<nat>) | Refresh

  ghost predicate GridAllowed(page: Page, g: Grid, op: GridOp) {
    match op
    case ToggleRow(i) => i < |page.ids|
    case ClearSelected(order) =>
      forall i: nat :: i in order <==> i < |page.marks| && page.marks[i] in g.marked
    case _ => true
  }

  lemma ClearedIs(page: Page, g: Grid, order: seq<nat>)
    requires Fits(page, g)
    requires forall i: nat :: i in order <==> i < |page.marks| && page.marks[i] in g.marked
    requires forall k | 0 <= k < |order| :: order[k] < |g.rows|
    ensures GridAllowed(page, g, ClearSelected(order))
    ensures GridStep(page, g, ClearSelected(order)) == SelectList(page, g, false, order)
  {}

  ghost function GridStep(page: Page, g: Grid, op: GridOp): (h: Grid)
    requires Fits(page, g) && GridAllowed(page, g, op)
    ensures Fits(page, h)
  {
    match op
    case ToggleRow(i) => Select(page, g, i, !g.rows[i])
    case ToggleHeader => SelectList(page, g.(header := !g.header), !g.header, UpTo(|g.rows|))
    case ClearSelected(order) =>
      assert forall k | 0 <= k < |order| :: order[k] in order;
      SelectList(page, g, false, order)
    case Refresh => if |g.rows| == 0 then g.(header := false) else Refreshed(page, g, g.header, |g.rows|)
  }

  /** The four records agree. */
  ghost predicate Linked(page: Page, g: Grid) {
    && Fits(page, g)
    && Agree(page.ids, g.picked)
    && g.rows == g.picked.on
    && (forall i | 0 <= i < |page.marks| :: g.rows[i] <==> page.marks[i] in g.marked)
    && (forall m :: m in g.marked ==> m in page.marks)
  }

  /** ... and the header is checked exactly when every row is. */
  ghost predicate Agreement(page: Page, g: Grid) {
    Linked(page, g) && (g.header <==> AllOn(g.rows))
  }

  function Start(page: Page): Grid {
    Grid(Unpicked(|page.ids|), seq(|page.ids|, i => false), {}, false)
  }

  lemma SelectEffect(page: Page, g: Grid, i: nat, on: bool)
    requires Linked(page, g) && Distinct(page.ids) && Distinct(page.marks) && i < |g.rows|
    ensures var h := Select(page, g, i, on);
      && Linked(page, h) && h.rows == g.rows[i := on]
      && (h.header <==> AllOn(h.rows) || (on && g.header))
  {
    hide Agree, Distinct, Told, Select, AllOn, Linked;
    PickedEffect(page, g, i, on);
    MarkEffect(page, g, i, on);
    SelectIs(page, g, i, on);
    var h := Select(page, g, i, on);
    LinkedWhen(page, h);
  }

  lemma LinkedWhen(page: Page, h: Grid)
    requires Fits(page, h) && Agree(page.ids, h.picked) && h.rows == h.picked.on
    requires forall j | 0 <= j < |page.marks| :: h.rows[j] <==> page.marks[j] in h.marked
    requires forall m :: m in h.marked ==> m in page.marks
    ensures Linked(page, h)
  {
    hide Agree;
  }

  // The model's and the collection's records after one call.
  lemma PickedEffect(page: Page, g: Grid, i: nat, on: bool)
    requires Linked(page, g) && Distinct(page.ids) && i < |g.rows|
    ensures Fits(page, g)
    ensures Agree(page.ids, Told(page.ids, g.picked, i, on)) && Told(page.ids, g.picked, i, on).on == g.rows[i := on]
  {
    hide Agree, Distinct, ModelSelect, ModelDeselect;
    OneFlag(page.ids, g.picked, i);
  }

  lemma SelectIs(page: Page, g: Grid, i: nat, on: bool)
    requires Fits(page, g) && i < |g.rows|
    ensures var marked := if on then g.marked + {page.marks[i]} else g.marked - {page.marks[i]};
      Select(page, g, i, on) ==
      Grid(Told(page.ids, g.picked, i, on), g.rows[i := on], marked, |marked| == |page.marks| || (on && g.header))
  {}

  // The header's record after one event.
  lemma MarkEffect(page: Page, g: Grid, i: nat, on: bool)
    requires Linked(page, g) && Distinct(page.marks) && i < |g.rows|
    ensures var marked := if on then g.marked + {page.marks[i]} else g.marked - {page.marks[i]};
      var rows := g.rows[i := on];
      && (forall j | 0 <= j < |page.marks| :: rows[j] <==> page.marks[j] in marked)
      && (forall m :: m in marked ==> m in page.marks)
      && (|marked| == |page.marks| <==> AllOn(rows))
  {
    var marked := if on then g.marked + {page.marks[i]} else g.marked - {page.marks[i]};
    AllOnIff(page.marks, g.rows[i := on], marked);
  }

  lemma {:induction false} SelectListEffect(page: Page, g: Grid, on: bool, order: seq<nat>)
    requires Linked(page, g) && Distinct(page.ids) && Distinct(page.marks)
    requires forall k | 0 <= k < |order| :: order[k] < |g.rows|
    ensures var h := SelectList(page, g, on, order);
      && Linked(page, h)
      && (forall i | 0 <= i < |g.rows| :: h.rows[i] == if i in order then on else g.rows[i])
      && (h.header <==> if order == [] then g.header else (on && g.header) || AllOn(h.rows))
  {
    if order != [] {
      var n := |order| - 1;
      var (rest, last) := (order[..n], order[n]);
      assert order == rest + [last];
      SelectListEffect(page, g, on, rest);
      var h := SelectList(page, g, on, rest);
      SelectEffect(page, h, last, on);
      if AllOn(h.rows) { StillAllOn(h.rows, last); }
      hide Agree, Distinct, Select, AllOn;
      forall i | 0 <= i < |g.rows| ensures i in order <==> i in rest || i == last {}
    }
  }

  lemma StillAllOn(rows: seq<bool>, i: nat)
    requires i < |rows| && AllOn(rows)
    ensures AllOn(rows[i := true])
  {}

  /** The first n rows; the others unchecked. */
  function Restored(rows: seq<bool>, n: nat): (r: seq<bool>)
    ensures |r| == |rows|
  {
    seq(|rows|, i requires 0 <= i < |rows| => i < n && rows[i])
  }

  lemma RestoredGrows(rows: seq<bool>, n: nat)
    requires n <= |rows|
    ensures n > 0 ==>
      Restored(rows, n) == if rows[n - 1] then Restored(rows, n - 1)[n - 1 := true] else Restored(rows, n - 1)
    ensures n == 0 ==> Restored(rows, n) == seq(|rows|, i => false)
    ensures n == |rows| ==> Restored(rows, n) == rows
  {}

  /** A refresh restores every row: the grid is as it was. */
  lemma {:induction false} RefreshEffect(page: Page, g: Grid, n: nat)
    requires Agreement(page, g) && Distinct(page.marks) && n <= |g.rows|
    ensures Refreshed(page, g, g.header, n) == g.(rows := Restored(g.rows, n))
  {
    hide Linked, Distinct, Select, Restored, AllOn;
    RestoredGrows(g.rows, n);
    if n > 0 {
      RefreshEffect(page, g, n - 1);
      RefreshStep(page, g, n);
    }
  }

  lemma RefreshStep(page: Page, g: Grid, n: nat)
    requires Agreement(page, g) && Distinct(page.marks) && 0 < n <= |g.rows|
    ensures var h := g.(rows := Restored(g.rows, n - 1));
      (if g.header || page.marks[n - 1] in h.marked then Select(page, h, n - 1, true) else h)
      == g.(rows := Restored(g.rows, n))
  {
    hide Agree, Distinct, Select, Restored;
    RestoredGrows(g.rows, n);
    var h := g.(rows := Restored(g.rows, n - 1));
    AllOnIff(page.marks, g.rows, g.marked);
    assert g.header ==> g.rows[n - 1];
    if g.rows[n - 1] {
      SelectAgain(page, h, n - 1, AllOn(g.rows));
    }
  }

  // Selecting a model that is selected already changes only its row's checkbox.
  lemma SelectAgain(page: Page, h: Grid, i: nat, all: bool)
    requires Fits(page, h) && i < |h.rows| && h.picked.on[i] && page.marks[i] in h.marked
    requires |h.marked| == |page.marks| <==> all
    requires h.header == all
    ensures Select(page, h, i, true) == h.(rows := h.rows[i := true])
  {
    var g := h.(rows := h.rows[i := true]);
    assert h.marked + {page.marks[i]} == h.marked;
    assert ModelSelect(page.ids, g.picked, i) == g.picked;
  }

  /** Every step keeps the agreement: a click on a row flips that row alone, a click on the
      header selects or deselects all, clearing deselects all, a refresh changes nothing. */
  lemma GridStepAgrees(page: Page, g: Grid, op: GridOp)
    requires Agreement(page, g) && |g.rows| > 0 && Distinct(page.ids) && Distinct(page.marks)
    requires GridAllowed(page, g, op)
    ensures Agreement(page, GridStep(page, g, op))
    ensures GridStep(page, g, op).rows == RowsAfter(g, op)
    ensures op.Refresh? ==> GridStep(page, g, op) == g
  {
    hide Agree, Distinct, Select, SelectList, Refreshed, Restored, AllOn;
    match op
    case ToggleRow(i) => ToggleRowAgrees(page, g, i);
    case ToggleHeader => ToggleHeaderAgrees(page, g);
    case ClearSelected(order) =>
      assert forall k | 0 <= k < |order| :: order[k] in order;
      ClearSelectedAgrees(page, g, order);
    case Refresh =>
      RefreshEffect(page, g, |g.rows|);
      RestoredGrows(g.rows, |g.rows|);
  }

  /** The rows a user expects to see checked. */
  function RowsAfter(g: Grid, op: GridOp): seq<bool> {
    match op
    case ToggleRow(i) => if i < |g.rows| then g.rows[i := !g.rows[i]] else g.rows
    case ToggleHeader => seq(|g.rows|, i => !g.header)
    case ClearSelected(_) => seq(|g.rows|, i => false)
    case Refresh => g.rows
  }

  lemma ToggleRowAgrees(page: Page, g: Grid, i: nat)
    requires Agreement(page, g) && Distinct(page.ids) && Distinct(page.marks) && i < |g.rows|
    ensures Agreement(page, Select(page, g, i, !g.rows[i]))
    ensures Select(page, g, i, !g.rows[i]).rows == g.rows[i := !g.rows[i]]
  {
    hide Agree, Distinct, Select;
    SelectEffect(page, g, i, !g.rows[i]);
  }

  lemma ToggleHeaderAgrees(page: Page, g: Grid)
    requires Agreement(page, g) && |g.rows| > 0 && Distinct(page.ids) && Distinct(page.marks)
    ensures var h := SelectList(page, g.(header := !g.header), !g.header, UpTo(|g.rows|));
      Agreement(page, h) && h.rows == seq(|g.rows|, i => !g.header)
  {
    hide Agree, Distinct, Select, SelectList;
    var order := UpTo(|g.rows|);
    forall i | 0 <= i < |g.rows| ensures i in order { assert order[i] == i; }
    SelectListEffect(page, g.(header := !g.header), !g.header, order);
    var h := SelectList(page, g.(header := !g.header), !g.header, order);
    assert h.rows[0] == !g.header;
  }

  lemma ClearSelectedAgrees(page: Page, g: Grid, order: seq<nat>)
    requires Agreement(page, g) && |g.rows| > 0 && Distinct(page.ids) && Distinct(page.marks)
    requires GridAllowed(page, g, ClearSelected(order))
    requires forall k | 0 <= k < |order| :: order[k] < |g.rows|
    ensures var h := SelectList(page, g, false, order);
      Agreement(page, h) && h.rows == seq(|g.rows|, i => false)
  {
    hide Agree, Distinct, Select, SelectList;
    SelectListEffect(page, g, false, order);
    var h := SelectList(page, g, false, order);
    forall i: nat | i < |g.rows| ensures !h.rows[i] {
      assert g.rows[i] ==> page.marks[i] in g.marked;
    }
    assert !h.rows[0];
    if order == [] {
      assert !g.rows[0];
    }
  }

  /** A run of clicks, clearings and refreshes. */
  ghost predicate GridRun(page: Page, states: seq<Grid>, ops: seq<GridOp>) {
    && |states| == |ops| + 1 && states[0] == Start(page)
    && (forall i | 0 <= i < |states| :: Fits(page, states[i]))
    && (forall i | 0 <= i < |ops| :: GridAllowed(page, states[i], ops[i])
                                     && states[i + 1] == GridStep(page, states[i], ops[i]))
  }

  lemma {:induction false} GridRunAgrees(page: Page, states: seq<Grid>, ops: seq<GridOp>, n: nat)
    requires GridRun(page, states, ops) && n < |states|
    requires |page.ids| > 0 && Distinct(page.ids) && Distinct(page.marks)
    ensures Agreement(page, states[n])
  {
    if n == 0 {
      assert !Start(page).rows[0];
    } else {
      GridRunAgrees(page, states, ops, n - 1);
      GridStepAgrees(page, states[n - 1], ops[n - 1]);
    }
  }

  /** Four-way agreement after every step of every run, exactly on a page that is not empty and
      whose models have distinct keys. Models that were never saved share the id `undefined`, so
      two of them break it. */
  lemma AgreementIff(page: Page)
    requires |page.ids| == |page.marks|
    ensures (forall states, ops, n: nat | GridRun(page, states, ops) && n < |states| :: Agreement(page, states[n]))
       <==> |page.ids| > 0 && Distinct(page.ids) && Distinct(page.marks)
  {
    if |page.ids| > 0 && Distinct(page.ids) && Distinct(page.marks) {
      forall states, ops, n: nat | GridRun(page, states, ops) && n < |states| ensures Agreement(page, states[n]) {
        GridRunAgrees(page, states, ops, n);
      }
    } else if |page.ids| == 0 {
      assert GridRun(page, [Start(page)], []);
      assert !Agreement(page, [Start(page)][0]);
    } else {
      var i, j :| 0 <= i < j < |page.ids| && (page.ids[i] == page.ids[j] || page.marks[i] == page.marks[j]);
      SharedKeyDisagrees(page, i, j);
    }
  }

  // Selecting the first of two models that share a key.
  lemma SharedKeyDisagrees(page: Page, i: nat, j: nat)
    requires |page.ids| == |page.marks| && i < j < |page.ids|
    requires page.ids[i] == page.ids[j] || page.marks[i] == page.marks[j]
    ensures exists states, ops, n: nat :: GridRun(page, states, ops) && n < |states| && !Agreement(page, states[n])
  {
    var s := Start(page);
    var t := GridStep(page, s, ToggleRow(i));
    var states, ops := [s, t], [ToggleRow(i)];
    assert GridRun(page, states, ops);
    assert page.ids[i] in t.picked.ids && page.marks[i] in t.marked && !t.rows[j];
    assert !t.picked.on[j];
    assert !Agreement(page, states[1]);
  }
}
