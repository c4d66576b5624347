/** The state a resume list form keeps next to the store: the identifier of the
    entry being edited (`editingId`), and the default values the form library
    holds. With react-hook-form, `reset(values)` loads `values` into the form and
    also makes them the new defaults; a bare `reset()` loads the current defaults.
    So once an entry has been opened for editing, every later bare `reset()`
    brings that entry's values back. */
module FormEditor {

  import opened Wrappers
  import opened Text
  import opened Keyed

  datatype Editor<T> = Editor(editingId: Option<Id>, defaults: T)

  /** `useState<string | null>(null)` and `useForm({ defaultValues: blank })`. */
  function Init<T>(blank: T): (ed: Editor<T>)
    ensures ed.editingId.None? && ed.defaults == blank
  {
    Editor(None, blank)
  }

  /** `if (editingId)`: a present, non-empty identifier. */
  predicate Editing<T>(ed: Editor<T>) {
    ed.editingId.Some? && Truthy(ed.editingId.value)
  }

  /** `setEditingId(id); form.reset(values)`: the entry's values fill the form and
      become its defaults. The result is the new state and the form's values. */
  function Edit<T>(ed: Editor<T>, id: Id, values: T): (r: (Editor<T>, T))
    ensures r.0.editingId == Some(id)
    ensures r.0.defaults == values && r.1 == values
  {
    (Editor(Some(id), values), values)
  }

  /** `setEditingId(null); form.reset()`, the closing step of a submit and the
      whole of "add new": nothing is edited, and the form shows the defaults it
      holds, which are not necessarily the blank ones. */
  function Clear<T>(ed: Editor<T>): (r: (Editor<T>, T))
    ensures !Editing(r.0)
    ensures r.0.defaults == ed.defaults && r.1 == ed.defaults
  {
    (Editor(None, ed.defaults), ed.defaults)
  }

  /** What "add new" evidently means to do: clear the form to the blank values,
      as `form.reset(blank)` would, whatever was edited before. */
  function ClearToBlank<T>(ed: Editor<T>, blank: T): (r: (Editor<T>, T))
    ensures !Editing(r.0)
    ensures r.0.defaults == blank && r.1 == blank
  {
    (Editor(None, blank), blank)
  }

  /** The defaults change only by editing: after an edit, any number of clears
      keeps showing the edited entry's values. */
  lemma {:induction false} ClearsKeepEditedValues<T>(ed: Editor<T>, id: Id, values: T, n: nat)
    ensures ClearTimes(Edit(ed, id, values).0, n).defaults == values
    ensures Clear(ClearTimes(Edit(ed, id, values).0, n)).1 == values
    decreases n
  {
    if n > 0 {
      ClearsKeepEditedValues(ed, id, values, n - 1);
    }
  }

  function ClearTimes<T>(ed: Editor<T>, n: nat): Editor<T>
    decreases n
  {
    if n == 0 then ed else Clear(ClearTimes(ed, n - 1)).0
  }
}
