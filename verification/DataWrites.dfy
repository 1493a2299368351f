/** Writes into the form data, and what they leave untouched: everything apart from them, and every honest buffer. */
module DataWrites {
  import opened Bytes
  import opened Json
  import opened FormModel

  /** A write or a removal at a pointer turned one value into the other. */
  ghost predicate Rewrites(data: Json, at: Pointer, data': Json) {
    (exists value :: SetBound(data, at, value) == Some(data')) || TakeBound(data, at) == Some(data')
  }

  lemma RewritesFrame(data: Json, at: Pointer, data': Json, p: Pointer)
    requires Rewrites(data, at, data') && Apart(at, p)
    ensures Resolve(data', p) == Resolve(data, p)
  {
    if value :| SetBound(data, at, value) == Some(data') {
      SetBoundFrame(data, at, value, p);
    } else {
      TakeBoundFrame(data, at, p);
    }
  }

  /** A write below a place needs an object or array there, and leaves one of the same size if it is an array. */
  lemma RewritesNeedContainers(data: Json, at: Pointer, data': Json, p: Pointer)
    requires Rewrites(data, at, data') && p <= at && p != at
    ensures Resolve(data, p).Some? && !IsScalar(Resolve(data, p).value)
    ensures Resolve(data', p).Some? && Resolve(data, p).value.Array? == Resolve(data', p).value.Array?
    ensures |ValuesAt(data', p)| == |ValuesAt(data, p)|
  {
    var rest := at[|p|..];
    assert at == p + rest && rest != [];
    RewrittenResolve(data, at, data', p, rest);
    if value :| SetBound(data, at, value) == Some(data') {
      SetBoundThrough(data, p, rest, value);
      var inner := SetBound(Resolve(data, p).value, rest, value);
      SetBoundReadsBack(data, p, inner.value);
    } else {
      TakeBoundThrough(data, p, rest);
      var inner := TakeBound(Resolve(data, p).value, rest);
      SetBoundReadsBack(data, p, inner.value);
    }
  }

  lemma RewrittenResolve(data: Json, at: Pointer, data': Json, p: Pointer, rest: Pointer)
    requires Rewrites(data, at, data') && at == p + rest && rest != []
    ensures Resolve(data, p).Some?
  {
    if value :| SetBound(data, at, value) == Some(data') {
      WhereSetBoundSucceeds(data, at, value);
      ResolveThrough(data, p, rest);
      assert at[..|at| - 1] == p + rest[..|rest| - 1];
      ResolveThrough(data, p, rest[..|rest| - 1]);
    } else {
      TakeBoundRemoves(data, at);
      ResolveThrough(data, p, rest);
    }
  }

  // -------------------------------------------------------------------- honest buffers and writes

  lemma HonestBuffersAreScalar(control: ControlDefinition, edit: EditState, current: Option<Json>)
    requires HonestEdit(control, edit, current) && edit.buffer.Some? && edit.blocker.None?
    ensures current.Some? && IsScalar(current.value)
  {
  }

  /** A write neither at nor above a control leaves its buffer honest. */
  lemma WritesElsewhereStayHonest(data: Json, at: Pointer, data': Json, control: ControlDefinition, edit: EditState,
                                  p: Pointer)
    requires Rewrites(data, at, data') && HonestEdit(control, edit, Resolve(data, p))
    requires edit.buffer.Some? && edit.blocker.None? ==> !(at <= p)
    ensures HonestEdit(control, edit, Resolve(data', p))
  {
    if edit.buffer.Some? && edit.blocker.None? {
      HonestBuffersAreScalar(control, edit, Resolve(data, p));
      if p <= at {
        RewritesNeedContainers(data, at, data', p);
        assert false;
      }
      RewritesFrame(data, at, data', p);
    }
  }

  /** No buffer without a blocker sits at or below the pointer. */
  ghost predicate QuietBelow(controls: seq<ControlDefinition>, edits: seq<EditState>, base: Pointer, at: Pointer)
    requires |edits| == |controls|
  {
    forall c | 0 <= c < |controls| && edits[c].buffer.Some? && edits[c].blocker.None? :: !(at <= base + controls[c].binding)
  }

  lemma WritesKeepEditsHonest(data: Json, at: Pointer, data': Json, controls: seq<ControlDefinition>,
                              edits: seq<EditState>)
    requires |edits| == |controls| && Rewrites(data, at, data') && HonestEdits(controls, edits, data)
    requires QuietBelow(controls, edits, [], at)
    ensures HonestEdits(controls, edits, data')
  {
    hide HonestEdit, Rewrites;
    forall c | 0 <= c < |controls| ensures HonestEdit(controls[c], edits[c], Resolve(data', controls[c].binding)) {
      assert [] + controls[c].binding == controls[c].binding;
      WritesElsewhereStayHonest(data, at, data', controls[c], edits[c], controls[c].binding);
    }
  }

  lemma WritesKeepItemsHonest(data: Json, at: Pointer, data': Json, list: ArrayDefinition, edits: seq<EditState>, i: nat)
    requires |edits| == |list.controls| && Rewrites(data, at, data')
    requires i < |ValuesAt(data, list.binding)| && i < |ValuesAt(data', list.binding)|
    requires HonestEdits(list.controls, edits, ValuesAt(data, list.binding)[i])
    requires QuietBelow(list.controls, edits, ItemPointer(list.binding, i), at)
    ensures HonestEdits(list.controls, edits, ValuesAt(data', list.binding)[i])
  {
    hide HonestEdit, Rewrites, ItemPointer, ValuesAt;
    forall c | 0 <= c < |list.controls|
      ensures HonestEdit(list.controls[c], edits[c], Resolve(ValuesAt(data', list.binding)[i], list.controls[c].binding))
    {
      var relative := list.controls[c].binding;
      ItemControlsResolveInItems(data, list.binding, i, relative);
      ItemControlsResolveInItems(data', list.binding, i, relative);
      WritesElsewhereStayHonest(data, at, data', list.controls[c], edits[c], ItemPointer(list.binding, i) + relative);
    }
  }

  /** A write that is not at or above an array keeps the number of its elements. */
  lemma WritesKeepCounts(data: Json, at: Pointer, data': Json, binding: Pointer)
    requires Rewrites(data, at, data') && !(at <= binding)
    ensures |ValuesAt(data', binding)| == |ValuesAt(data, binding)|
  {
    if binding <= at {
      RewritesNeedContainers(data, at, data', binding);
    } else {
      RewritesFrame(data, at, data', binding);
    }
  }
}
