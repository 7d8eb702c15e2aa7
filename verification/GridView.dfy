/** XAOverrides.js, on objects: models and their collection that call each other, the row cells
    with their checkboxes, and the header cell that listens to them. Every method does to the
    shared state what the function of module Selection that it names does to its value. */
module GridView {
  import opened Wrappers
  import S = Selection

  /** A model with Picky.Selectable. `id` is the key its collection files it under, `mark` the
      one the header cell files it under. */
  class Model {
    const id: string
    const mark: string
    const collection: Collection
    var selected: bool

    constructor (id: string, mark: string, collection: Collection)
      ensures this.id == id && this.mark == mark && this.collection == collection && !selected
    {
      this.id := id;
      this.mark := mark;
      this.collection := collection;
      selected := false;
    }

    method Select(ghost i: nat)
      requires collection.Holds(this, i)
      modifies this`selected, collection`picked, collection`pickedLength
      ensures collection.View() == S.ModelSelect(collection.Ids(), old(collection.View()), i)
      decreases collection.Unsettled(this, true)
    {
      if selected {
        return;
      }
      selected := true;
      collection.Select(this, i);
    }

    method Deselect(ghost i: nat)
      requires collection.Holds(this, i)
      modifies this`selected, collection`picked, collection`pickedLength
      ensures collection.View() == S.ModelDeselect(collection.Ids(), old(collection.View()), i)
      decreases collection.Unsettled(this, false)
    {
      if !selected {
        return;
      }
      selected := false;
      collection.Deselect(this, i);
    }

    method ToggleSelected(ghost i: nat)
      requires collection.Holds(this, i)
      modifies this`selected, collection`picked, collection`pickedLength
      ensures collection.View() == S.PickyStep(collection.Ids(), old(collection.View()), S.ToggleModel(i))
    {
      if selected {
        Deselect(i);
      } else {
        Select(i);
      }
    }
  }

  /** A collection with Picky.MultiSelect. */
  class Collection {
    var models: seq<Model>
    var picked: map<string, Model>
    var pickedLength: Option<nat>

    constructor ()
      ensures models == [] && picked == map[] && pickedLength == None
    {
      models, picked, pickedLength := [], map[], None;
    }

    /** The models are this collection's own, each once. */
    ghost predicate Ready()
      reads this`models
    {
      (forall i | 0 <= i < |models| :: models[i].collection == this)
      && (forall i, j | 0 <= i < j < |models| :: models[i] != models[j])
    }

    ghost predicate Holds(model: Model, i: nat)
      reads this`models
    {
      Ready() && i < |models| && models[i] == model
    }

    ghost function Ids(): (ids: seq<string>)
      reads this`models
      ensures |ids| == |models|
    {
      var ms := models;
      seq(|ms|, i requires 0 <= i < |ms| => ms[i].id)
    }

    ghost function View(): (p: S.Picked)
      reads this, models
      ensures |p.on| == |models|
    {
      S.Picked(seq(|models|, i requires 0 <= i < |models| reads this, models => models[i].selected),
               picked.Keys, pickedLength)
    }

    /** How far model and collection still are from the wanted state: what bounds the calls
        they make to each other. */
    ghost function Unsettled(model: Model, wanted: bool): nat
      reads this`picked, model`selected
    {
      (if model.selected == wanted then 0 else 1) + if (model.id in picked) == wanted then 0 else 1
    }

    method Select(model: Model, ghost i: nat)
      requires Holds(model, i)
      modifies model`selected, this`picked, this`pickedLength
      ensures View() == S.CollectionSelect(Ids(), old(View()), i)
      decreases Unsettled(model, true)
    {
      hide S.ModelSelect, S.CollectionSelect;
      S.CollectionSelectRuns(Ids(), View(), i);
      assert Ids()[i] == model.id;
      if model.id in picked {
        return;
      }
      picked := picked[model.id := model];
      assert View() == old(View()).(ids := old(View()).ids + {model.id});
      model.Select(i);
      ghost var told := View();
      pickedLength := Some(|picked|);
      assert View() == S.Counted(told);
    }

    method Deselect(model: Model, ghost i: nat)
      requires Holds(model, i)
      modifies model`selected, this`picked, this`pickedLength
      ensures View() == S.CollectionDeselect(Ids(), old(View()), i)
      decreases Unsettled(model, false)
    {
      hide S.ModelDeselect, S.CollectionDeselect;
      S.CollectionDeselectRuns(Ids(), View(), i);
      assert Ids()[i] == model.id;
      if model.id !in picked {
        return;
      }
      picked := picked - {model.id};
      assert View() == old(View()).(ids := old(View()).ids - {model.id});
      model.Deselect(i);
      ghost var told := View();
      pickedLength := Some(|picked|);
      assert View() == S.Counted(told);
    }

    method SelectAll()
      requires Ready()
      modifies models, this`picked, this`pickedLength
      ensures View() == S.SelectAll(Ids(), old(View()))
    {
      hide S.ModelSelect;
      ghost var ids, start := Ids(), View();
      for i := 0 to |models|
        invariant Ready() && models == old(models) && Ids() == ids
        invariant View() == S.SelectFirst(ids, start, i)
      {
        models[i].Select(i);
      }
      pickedLength := Some(|picked|);
    }

    method SelectNone()
      requires Ready()
      modifies models, this`picked, this`pickedLength
      ensures View() == S.SelectNone(Ids(), old(View()))
    {
      if pickedLength == Some(0) {
        return;
      }
      hide S.ModelDeselect;
      ghost var ids, start := Ids(), View();
      for i := 0 to |models|
        invariant Ready() && models == old(models) && Ids() == ids
        invariant View() == S.DeselectFirst(ids, start, i)
      {
        models[i].Deselect(i);
      }
      pickedLength := Some(|picked|);
    }

    method ToggleSelectAll()
      requires Ready()
      modifies models, this`picked, this`pickedLength
      ensures View() == S.ToggleSelectAll(Ids(), old(View()))
    {
      if pickedLength == Some(|models|) {
        SelectNone();
      } else {
        SelectAll();
      }
    }
  }

  /** A SelectRowCell. */
  class RowCell {
    const model: Model
    var checked: bool

    constructor (model: Model)
      ensures this.model == model && !checked
    {
      this.model := model;
      checked := false;
    }
  }

  /** The SelectAllHeaderCell: its checkbox and the keys of the models it takes for selected. */
  class HeaderCell {
    var checked: bool
    var selectedModels: set<string>

    constructor ()
      ensures !checked && selectedModels == {}
    {
      checked, selectedModels := false, {};
    }

    /** The listener for `backgrid:selected`. */
    method OnSelected(mark: string, selected: bool, length: nat)
      modifies this
      ensures selectedModels == if selected then old(selectedModels) + {mark} else old(selectedModels) - {mark}
      ensures checked <==> |selectedModels| == length || (selected && old(checked))
    {
      if selected {
        selectedModels := selectedModels + {mark};
      } else {
        selectedModels := selectedModels - {mark};
        checked := false;
      }
      if |selectedModels| == length {
        checked := true;
      }
    }
  }

  lemma AllThere(found: seq<Option<nat>>, order: seq<nat>)
    requires |found| == |order| && forall j | 0 <= j < |order| :: found[j] == Some(order[j])
    ensures None !in found && forall i: nat :: i in order <==> Some(i) in found
  {
    forall i: nat ensures i in order <==> Some(i) in found {
      if i in order {
        var j :| 0 <= j < |order| && order[j] == i;
        assert found[j] == Some(i);
      }
    }
  }

  /** One page of a Backgrid grid. */
  class Grid {
    const collection: Collection
    var rows: seq<RowCell>
    const header: HeaderCell

    constructor (collection: Collection, rows: seq<RowCell>, header: HeaderCell)
      ensures this.collection == collection && this.rows == rows && this.header == header
    {
      this.collection := collection;
      this.rows := rows;
      this.header := header;
    }

    /** One row cell for each model, in order. */
    ghost predicate Ready()
      reads this, collection`models
    {
      collection.Ready() && |rows| == |collection.models|
      && (forall i | 0 <= i < |rows| :: rows[i].model == collection.models[i])
    }

    ghost function Page(): (page: S.Page)
      reads collection`models
      ensures |page.ids| == |page.marks| == |collection.models|
    {
      var ms := collection.models;
      S.Page(collection.Ids(), seq(|ms|, i requires 0 <= i < |ms| => ms[i].mark))
    }

    ghost function View(): (g: S.Grid)
      requires Ready()
      reads this, collection, collection.models, rows, header
      ensures S.Fits(Page(), g)
    {
      S.Grid(collection.View(), seq(|rows|, i requires 0 <= i < |rows| reads this, rows => rows[i].checked),
             header.selectedModels, header.checked)
    }

    /** Select or deselect the row's model, as its checkbox says. */
    method TellModel(i: nat)
      requires Ready() && i < |rows|
      modifies collection.models, collection`picked, collection`pickedLength
      ensures Ready() && View() == old(View()).(picked := S.Told(Page().ids, old(View()).picked, i, rows[i].checked))
    {
      hide S.ModelSelect, S.ModelDeselect;
      if rows[i].checked {
        rows[i].model.Select(i);
      } else {
        rows[i].model.Deselect(i);
      }
    }

    /** `SelectRowCell.onChange`: tell the model, then trigger `backgrid:selected`. */
    method RowOnChange(i: nat)
      requires Ready() && i < |rows|
      modifies collection.models, collection`picked, collection`pickedLength, header
      ensures Ready() && View() == S.RowOnChange(Page(), old(View()), i)
    {
      hide S.Told;
      TellModel(i);
      ghost var told := View();
      header.OnSelected(rows[i].model.mark, rows[i].checked, |collection.models|);
      assert View() == S.Selected(Page(), told, i, rows[i].checked);
    }

    /** The row's listener for `backgrid:select`: set the checkbox and fire its change event. */
    method TriggerSelect(i: nat, selected: bool)
      requires Ready() && i < |rows|
      modifies collection.models, collection`picked, collection`pickedLength, rows, header
      ensures Ready() && View() == S.Select(Page(), old(View()), i, selected)
    {
      rows[i].checked := selected;
      assert View() == old(View()).(rows := old(View()).rows[i := selected]);
      RowOnChange(i);
    }

    /** A click on a row's checkbox. */
    method ToggleRow(i: nat)
      requires Ready() && i < |rows|
      modifies collection.models, collection`picked, collection`pickedLength, rows, header
      ensures Ready() && View() == S.GridStep(Page(), old(View()), S.ToggleRow(i))
    {
      TriggerSelect(i, !rows[i].checked);
    }

    /** A click on the header's checkbox: `SelectAllHeaderCell.onChange`. */
    method ToggleHeader()
      requires Ready()
      modifies collection.models, collection`picked, collection`pickedLength, rows, header
      ensures Ready() && View() == S.GridStep(Page(), old(View()), S.ToggleHeader)
    {
      hide S.Select;
      header.checked := !header.checked;
      var checked := header.checked;
      ghost var start := old(View()).(header := checked);
      ghost var order := S.UpTo(|rows|);
      for i := 0 to |rows|
        invariant rows == old(rows) && collection.models == old(collection.models) && Ready()
        invariant View() == S.SelectList(Page(), start, checked, order[..i])
      {
        TriggerSelect(i, checked);
        assert order[..i + 1][..i] == order[..i];
      }
      assert order[..|rows|] == order;
    }

    /** `collection.get` on a key of the header's: where the model is, if it is there. */
    method Find(mark: string) returns (i: Option<nat>)
      ensures i.Some? ==> i.value < |Page().marks| && Page().marks[i.value] == mark
      ensures i.None? ==> mark !in Page().marks
    {
      ghost var marks := Page().marks;
      for k := 0 to |collection.models|
        invariant forall j | 0 <= j < k :: marks[j] != mark
      {
        assert marks[k] == collection.models[k].mark;
        if collection.models[k].mark == mark {
          return Some(k);
        }
      }
      return None;
    }

    /** `getSelectedModels`: where the models are that the header's keys stand for, or that one is
        not there any more. */
    method GetSelectedModels() returns (order: seq<Option<nat>>)
      requires Ready() && S.Distinct(Page().marks)
      ensures forall i: nat :: Some(i) in order <==> i < |Page().marks| && Page().marks[i] in header.selectedModels
      ensures None in order <==> exists m :: m in header.selectedModels && m !in Page().marks
    {
      order := [];
      var rest := header.selectedModels;
      ghost var marks := Page().marks;
      while rest != {}
        invariant rest <= header.selectedModels
        invariant forall i: nat :: Some(i) in order <==> i < |marks| && marks[i] in header.selectedModels - rest
        invariant None in order <==> exists m :: m in header.selectedModels - rest && m !in marks
      {
        var mark :| mark in rest;
        var found := Find(mark);
        assert forall k: nat | k < |marks| && marks[k] == mark :: found == Some(k);
        assert forall x :: x in order + [found] <==> x in order || x == found;
        order := order + [found];
        rest := rest - {mark};
      }
    }

    /** The loop of `clearSelectedModels`, up to the first gap. */
    method DeselectThose(selected: seq<Option<nat>>) returns (ghost order: seq<nat>, done: bool)
      requires Ready() && forall k | 0 <= k < |selected| :: selected[k].Some? ==> selected[k].value < |rows|
      modifies collection.models, collection`picked, collection`pickedLength, rows, header
      ensures Ready() && Page() == old(Page())
      ensures |order| <= |selected| && forall j | 0 <= j < |order| :: selected[j] == Some(order[j])
      ensures if done then |order| == |selected| else |order| < |selected| && selected[|order|] == None
      ensures View() == S.SelectList(Page(), old(View()), false, order)
    {
      hide S.Select, S.SelectList;
      ghost var page, start := Page(), View();
      order := [];
      S.SelectListNone(page, start, false);
      for k := 0 to |selected|
        invariant rows == old(rows) && collection.models == old(collection.models) && Ready() && Page() == page
        invariant |order| == k && forall j | 0 <= j < k :: selected[j] == Some(order[j])
        invariant View() == S.SelectList(page, start, false, order)
      {
        if selected[k].None? {
          return order, false;
        }
        S.SelectListSnoc(page, start, false, order, selected[k].value);
        TriggerSelect(selected[k].value, false);
        order := order + [selected[k].value];
      }
      return order, true;
    }

    /** False when it throws, at a key whose model is not there. */
    method ClearSelectedModels() returns (ghost order: seq<nat>, done: bool)
      requires Ready() && S.Distinct(Page().marks)
      modifies collection.models, collection`picked, collection`pickedLength, rows, header
      ensures Ready() && Page() == old(Page())
      ensures forall k | 0 <= k < |order| ::
        order[k] < |Page().marks| && Page().marks[order[k]] in old(header.selectedModels)
      ensures View() == S.SelectList(Page(), old(View()), false, order)
      ensures done <==> forall m :: m in old(header.selectedModels) ==> m in Page().marks
      ensures done ==> S.GridAllowed(Page(), old(View()), S.ClearSelected(order))
      ensures done ==> View() == S.GridStep(Page(), old(View()), S.ClearSelected(order))
    {
      hide S.Select, S.SelectList, S.Distinct, S.GridStep, S.GridAllowed;
      ghost var page, start := Page(), View();
      var selected := GetSelectedModels();
      assert forall k | 0 <= k < |selected| :: selected[k] in selected;
      order, done := DeselectThose(selected);
      if done {
        AllThere(selected, order);
        S.ClearedIs(page, start, order);
      }
    }

    /** The body renders new row cells, unchecked. */
    method RenderRows()
      requires Ready()
      modifies this`rows
      ensures Ready() && fresh(rows) && View() == S.Refreshed(Page(), old(View()), old(header.checked), 0)
    {
      var cells: seq<RowCell> := [];
      for i := 0 to |collection.models|
        invariant |cells| == i
        invariant forall k | 0 <= k < i ::
          fresh(cells[k]) && cells[k].model == collection.models[k] && !cells[k].checked
      {
        var cell := new RowCell(collection.models[i]);
        cells := cells + [cell];
      }
      rows := cells;
    }

    /** A refresh of the body; then the header's listener for `backgrid:refresh`. */
    method Refresh()
      requires Ready()
      modifies this`rows, collection.models, collection`picked, collection`pickedLength, header
      ensures Ready() && View() == S.GridStep(Page(), old(View()), S.Refresh)
    {
      hide S.Select;
      RenderRows();
      if |collection.models| == 0 {
        header.checked := false;
        return;
      }
      var checked := header.checked;
      ghost var cells := rows;
      for i := 0 to |collection.models|
        invariant rows == cells && collection.models == old(collection.models) && Ready()
        invariant View() == S.Refreshed(Page(), old(View()), checked, i)
      {
        if checked || collection.models[i].mark in header.selectedModels {
          TriggerSelect(i, true);
        }
      }
    }
  }
}
