/** Findings that others report about the form data, in one batch for each source. */
module ExternalFindings {
  import opened Bytes
  import opened FormModel
  import opened ArrayOperations

  // ------------------------------------------------------------------------- one batch

  /** Where `sort_by` would put a finding, and `dedup` would drop it again. */
  function InsertFinding(sorted: seq<Finding>, f: Finding): seq<Finding> {
    if sorted == [] then [f]
    else if f == sorted[0] then sorted
    else if FindingBelow(f, sorted[0]) then [f] + sorted
    else [sorted[0]] + InsertFinding(sorted[1..], f)
  }

  /** The findings of a batch: sorted, each once. */
  function Normalized(findings: seq<Finding>): seq<Finding> {
    if findings == [] then []
    else InsertFinding(Normalized(findings[..|findings| - 1]), findings[|findings| - 1])
  }

  lemma FindingOrderIsTotal(f: Finding, g: Finding)
    ensures !(FindingBelow(f, g) && FindingBelow(g, f))
    ensures f == g || FindingBelow(f, g) || FindingBelow(g, f)
    ensures !FindingBelow(f, f)
  {
    BelowIsTotal(f.pointer, g.pointer);
    BelowIsTotal(f.code, g.code);
    BelowIsTotal(f.pointer, f.pointer);
    BelowIsTotal(f.code, f.code);
  }

  lemma FindingOrderIsTransitive(f: Finding, g: Finding, h: Finding)
    requires FindingBelow(f, g) && FindingBelow(g, h)
    ensures FindingBelow(f, h)
  {
    if Below(f.pointer, g.pointer) && Below(g.pointer, h.pointer) {
      BelowIsTransitive(f.pointer, g.pointer, h.pointer);
    }
    if Below(f.code, g.code) && Below(g.code, h.code) {
      BelowIsTransitive(f.code, g.code, h.code);
    }
  }

  lemma {:induction false} InsertFindingKeepsSorted(sorted: seq<Finding>, f: Finding)
    requires SortedFindings(sorted)
    ensures SortedFindings(InsertFinding(sorted, f))
    ensures forall g :: g in InsertFinding(sorted, f) <==> g in sorted || g == f
  {
    if sorted != [] && f != sorted[0] {
      hide FindingBelow;
      FindingOrderIsTotal(f, sorted[0]);
      if FindingBelow(f, sorted[0]) {
        forall j | 0 < j < |sorted| ensures FindingBelow(f, sorted[j]) {
          FindingOrderIsTransitive(f, sorted[0], sorted[j]);
        }
      } else {
        var rest := InsertFinding(sorted[1..], f);
        InsertFindingKeepsSorted(sorted[1..], f);
        assert sorted == [sorted[0]] + sorted[1..];
        forall j | 0 <= j < |rest| ensures FindingBelow(sorted[0], rest[j]) {
          assert rest[j] in rest;
        }
      }
    }
  }

  lemma {:induction false} NormalizedIsSorted(findings: seq<Finding>)
    ensures SortedFindings(Normalized(findings))
    ensures forall g :: g in Normalized(findings) <==> g in findings
  {
    if findings != [] {
      var front, last := findings[..|findings| - 1], findings[|findings| - 1];
      NormalizedIsSorted(front);
      InsertFindingKeepsSorted(Normalized(front), last);
      assert findings == front + [last];
    }
  }

  /** A sorted list is determined by what it holds. */
  lemma {:induction false} SortedFindingsAreUnique(left: seq<Finding>, right: seq<Finding>)
    requires SortedFindings(left) && SortedFindings(right) && forall g :: g in left <==> g in right
    ensures left == right
  {
    if left == [] {
      assert forall i | 0 <= i < |right| :: right[i] in left;
    } else {
      hide FindingBelow;
      assert left[0] in right && right != [];
      assert right[0] in left;
      var i :| 0 <= i < |right| && right[i] == left[0];
      var j :| 0 <= j < |left| && left[j] == right[0];
      FindingOrderIsTotal(left[0], right[0]);
      assert left[0] == right[0];
      TailFindings(left, right);
      SortedFindingsAreUnique(left[1..], right[1..]);
      assert left == [left[0]] + left[1..] && right == [right[0]] + right[1..];
    }
  }

  lemma InTail<T>(xs: seq<T>, x: T)
    requires xs != [] && forall j | 0 < j < |xs| :: xs[j] != xs[0]
    ensures x in xs[1..] <==> x in xs && x != xs[0]
  {
    assert xs == [xs[0]] + xs[1..];
    assert forall j | 0 <= j < |xs[1..]| :: xs[1..][j] == xs[j + 1];
  }

  lemma TailFindings(left: seq<Finding>, right: seq<Finding>)
    requires left != [] && right != [] && left[0] == right[0]
    requires SortedFindings(left) && SortedFindings(right) && forall g :: g in left <==> g in right
    ensures SortedFindings(left[1..]) && SortedFindings(right[1..])
    ensures forall g :: g in left[1..] <==> g in right[1..]
  {
    FindingOrderIsTotal(left[0], left[0]);
    hide FindingBelow;
    forall g: Finding ensures g in left[1..] <==> g in right[1..] {
      InTail(left, g);
      InTail(right, g);
    }
  }

  /** What is stored depends only on the set of findings, not on their order or repetition. */
  lemma OnlyTheSetMatters(left: seq<Finding>, right: seq<Finding>)
    requires forall g :: g in left <==> g in right
    ensures Normalized(left) == Normalized(right)
  {
    NormalizedIsSorted(left);
    NormalizedIsSorted(right);
    SortedFindingsAreUnique(Normalized(left), Normalized(right));
  }

  // ------------------------------------------------------------------------ all batches

  function BatchIndex(batches: seq<Batch>, source: Bytes): (i: Option<nat>)
    ensures i.Some? ==> i.value < |batches| && batches[i.value].source == source
    ensures i.None? ==> forall j | 0 <= j < |batches| :: batches[j].source != source
  {
    if batches == [] then None
    else if batches[0].source == source then Some(0)
    else
      var rest := BatchIndex(batches[1..], source);
      if rest.None? then None else Some(rest.value + 1)
  }

  function InsertBatch(batches: seq<Batch>, batch: Batch): seq<Batch> {
    if batches == [] || Below(batch.source, batches[0].source) then [batch] + batches
    else [batches[0]] + InsertBatch(batches[1..], batch)
  }

  datatype ApplyFindingsError = StaleDataRevision(current: nat, supplied: nat)

  /** `apply_external_findings`. */
  function ApplyFindings(s: State, source: Bytes, dataRevision: nat, findings: seq<Finding>)
    : (State, Result<(), ApplyFindingsError>)
  {
    if dataRevision != s.dataRevision then (s, Err(StaleDataRevision(s.dataRevision, dataRevision)))
    else
      var normalized, i := Normalized(findings), BatchIndex(s.batches, source);
      var batch := Batch(source, dataRevision, normalized);
      if normalized == [] then
        if i.None? then (s, Ok(()))
        else (s.(batches := RemoveAt(s.batches, i.value), stateRevision := s.stateRevision + 1), Ok(()))
      else if i.None? then (s.(batches := InsertBatch(s.batches, batch), stateRevision := s.stateRevision + 1), Ok(()))
      else if s.batches[i.value] == batch then (s, Ok(()))
      else (s.(batches := s.batches[i.value := batch], stateRevision := s.stateRevision + 1), Ok(()))
  }

  ghost predicate BatchSound(s: State, batch: Batch) {
    batch.dataRevision == s.dataRevision && batch.findings != [] && SortedFindings(batch.findings)
  }

  lemma {:induction false} InsertBatchKeepsSorted(batches: seq<Batch>, batch: Batch)
    requires SortedSources(batches) && BatchIndex(batches, batch.source).None?
    ensures SortedSources(InsertBatch(batches, batch))
    ensures forall b :: b in InsertBatch(batches, batch) <==> b in batches || b == batch
  {
    if batches != [] {
      BelowIsTotal(batch.source, batches[0].source);
      if Below(batch.source, batches[0].source) {
        forall j | 0 < j < |batches| ensures Below(batch.source, batches[j].source) {
          BelowIsTransitive(batch.source, batches[0].source, batches[j].source);
        }
      } else {
        hide Below;
        var rest := InsertBatch(batches[1..], batch);
        InsertBatchKeepsSorted(batches[1..], batch);
        assert batches == [batches[0]] + batches[1..];
        forall j | 0 <= j < |rest| ensures Below(batches[0].source, rest[j].source) {
          assert rest[j] in rest;
        }
      }
    }
  }

  lemma BatchesAreCurrent(s: State, batches: seq<Batch>)
    requires SortedSources(batches) && forall b | b in batches :: BatchSound(s, b)
    ensures Current(s.(batches := batches))
  {
    forall i | 0 <= i < |batches| ensures BatchSound(s, batches[i]) {
      assert batches[i] in batches;
    }
  }

  lemma ApplyFindingsIsSound(d: Definition, s: State, source: Bytes, dataRevision: nat, findings: seq<Finding>)
    requires Sound(d, s)
    ensures Sound(d, ApplyFindings(s, source, dataRevision, findings).0)
    ensures Honest(d, s) ==> Honest(d, ApplyFindings(s, source, dataRevision, findings).0)
  {
    if dataRevision == s.dataRevision {
      var normalized, i := Normalized(findings), BatchIndex(s.batches, source);
      var batch := Batch(source, dataRevision, normalized);
      NormalizedIsSorted(findings);
      assert forall b | b in s.batches :: BatchSound(s, b);
      hide Normalized, InsertBatch, Below, SortedFindings, ValuesAt, Identified, HonestEdits;
      if i.None? {
        InsertBatchKeepsSorted(s.batches, batch);
        if normalized != [] {
          BatchesAreCurrent(s, InsertBatch(s.batches, batch));
        }
      } else if normalized != [] {
        BatchesAreCurrent(s, s.batches[i.value := batch]);
      } else {
        BatchesAreCurrent(s, RemoveAt(s.batches, i.value));
      }
      SameFormIsHonest(d, s, ApplyFindings(s, source, dataRevision, findings).0);
    }
  }

  /** Soundness of the rest, and honesty, look at nothing that findings change. */
  lemma SameFormIsHonest(d: Definition, s: State, t: State)
    requires Sound(d, s) && t == s.(batches := t.batches, stateRevision := t.stateRevision)
    ensures Shaped(d, t) && Aligned(d, t) && Identified(t) && (Honest(d, s) ==> Honest(d, t))
  {
    hide ValuesAt, HonestEdits;
    if Honest(d, s) {
      forall k | 0 <= k < |d.arrays| ensures Rows(d, t, k) == Rows(d, s, k) {
      }
    }
  }

  // ------------------------------------------------------------------------------ the laws

  /** What is stored for a source; nothing when it has no batch. */
  function FindingsOf(s: State, source: Bytes): seq<Finding> {
    var i := BatchIndex(s.batches, source);
    if i.None? then [] else s.batches[i.value].findings
  }

  lemma SourceIsUnique(batches: seq<Batch>, i: nat)
    requires SortedSources(batches) && i < |batches|
    ensures BatchIndex(batches, batches[i].source) == Some(i)
  {
    var found := BatchIndex(batches, batches[i].source).value;
    BelowIsTotal(batches[found].source, batches[i].source);
  }

  lemma StoredFindings(s: State, batch: Batch)
    requires Current(s)
    ensures batch in s.batches <==>
            batch.findings != [] && batch.dataRevision == s.dataRevision && batch.findings == FindingsOf(s, batch.source)
  {
    hide SortedFindings;
    if batch in s.batches {
      var i :| 0 <= i < |s.batches| && s.batches[i] == batch;
      SourceIsUnique(s.batches, i);
    }
  }

  /** Applying findings stores them for their source and leaves every other source alone. */
  lemma AppliedFindingsAreStored(d: Definition, s: State, source: Bytes, findings: seq<Finding>, other: Bytes)
    requires Sound(d, s)
    ensures var t := ApplyFindings(s, source, s.dataRevision, findings).0;
            FindingsOf(t, other) == if other == source then Normalized(findings) else FindingsOf(s, other)
  {
    var t := ApplyFindings(s, source, s.dataRevision, findings).0;
    var batch := Batch(source, s.dataRevision, Normalized(findings));
    ApplyFindingsIsSound(d, s, source, s.dataRevision, findings);
    BatchesAfter(d, s, source, findings);
    var before, after := Batch(other, s.dataRevision, FindingsOf(s, other)), Batch(other, s.dataRevision, FindingsOf(t, other));
    var wanted := Batch(other, s.dataRevision, if other == source then Normalized(findings) else FindingsOf(s, other));
    hide Normalized, ApplyFindings, Sound;
    StoredFindings(s, before);
    StoredFindings(s, after);
    StoredFindings(t, after);
    StoredFindings(t, wanted);
  }

  lemma WithoutBatch(batches: seq<Batch>, i: nat, source: Bytes, batch: Batch)
    requires i < |batches| && batches[i].source == source == batch.source
    requires forall j | 0 <= j < |batches| && j != i :: batches[j].source != source
    ensures forall b :: b in RemoveAt(batches, i) <==> b in batches && b.source != source
    ensures forall b :: b in batches[i := batch] <==> (b in batches && b.source != source) || b == batch
  {
    assert batches == batches[..i] + [batches[i]] + batches[i + 1..];
    assert batches[i := batch] == batches[..i] + [batch] + batches[i + 1..];
  }

  lemma SameBatch(s: State, i: nat, batch: Batch)
    requires i < |s.batches| && forall j | 0 <= j < |s.batches| && j != i :: s.batches[j].source != s.batches[i].source
    ensures s.batches[i] == batch ==> forall b | b in s.batches && b.source == batch.source :: b == batch
  {
  }

  lemma BatchesAfter(d: Definition, s: State, source: Bytes, findings: seq<Finding>)
    requires Sound(d, s)
    ensures var t := ApplyFindings(s, source, s.dataRevision, findings).0;
            && t.dataRevision == s.dataRevision && Current(t)
            && forall b :: b in t.batches <==> if b.source == source
                                               then b == Batch(source, s.dataRevision, Normalized(findings)) && b.findings != []
                                               else b in s.batches
  {
    ApplyFindingsIsSound(d, s, source, s.dataRevision, findings);
    var i := BatchIndex(s.batches, source);
    var batch := Batch(source, s.dataRevision, Normalized(findings));
    hide Normalized, SortedFindings;
    if i.Some? {
      forall j | 0 <= j < |s.batches| && j != i.value ensures s.batches[j].source != source {
        SourceIsUnique(s.batches, j);
      }
      WithoutBatch(s.batches, i.value, source, batch);
      hide SortedSources, BatchIndex;
      assert s.batches[i.value] in s.batches;
      SameBatch(s, i.value, batch);
    } else {
      InsertBatchKeepsSorted(s.batches, batch);
      hide InsertBatch, SortedSources;
    }
  }

  /** Two forms that store the same findings for every source have the same batches. */
  lemma {:induction false} SortedBatchesAreUnique(left: seq<Batch>, right: seq<Batch>)
    requires SortedSources(left) && SortedSources(right) && forall b :: b in left <==> b in right
    ensures left == right
  {
    if left == [] {
      assert forall i | 0 <= i < |right| :: right[i] in left;
    } else {
      assert left[0] in right && right != [];
      assert right[0] in left;
      var i :| 0 <= i < |right| && right[i] == left[0];
      var j :| 0 <= j < |left| && left[j] == right[0];
      BelowIsTotal(left[0].source, right[0].source);
      hide Below;
      assert left[0] == right[0];
      TailBatches(left, right);
      SortedBatchesAreUnique(left[1..], right[1..]);
      assert left == [left[0]] + left[1..] && right == [right[0]] + right[1..];
    }
  }

  lemma TailBatches(left: seq<Batch>, right: seq<Batch>)
    requires left != [] && right != [] && left[0] == right[0]
    requires SortedSources(left) && SortedSources(right) && forall b :: b in left <==> b in right
    ensures SortedSources(left[1..]) && SortedSources(right[1..])
    ensures forall b :: b in left[1..] <==> b in right[1..]
  {
    BelowIsTotal(left[0].source, left[0].source);
    hide Below;
    forall g: Batch ensures g in left[1..] <==> g in right[1..] {
      InTail(left, g);
      InTail(right, g);
    }
  }

  lemma FindingsChangeOnlyBatches(s: State, source: Bytes, findings: seq<Finding>)
    ensures var t := ApplyFindings(s, source, s.dataRevision, findings).0;
            t == s.(batches := t.batches, stateRevision := t.stateRevision)
  {
    hide Normalized, InsertBatch, BatchIndex;
  }

  lemma BothBatches(d: Definition, s: State, source: Bytes, findings: seq<Finding>, other: Bytes, more: seq<Finding>)
    requires Sound(d, s) && source != other
    ensures var t := ApplyFindings(ApplyFindings(s, source, s.dataRevision, findings).0, other, s.dataRevision, more).0;
            && SortedSources(t.batches)
            && forall b :: b in t.batches <==>
                 if b.source == source then b == Batch(source, s.dataRevision, Normalized(findings)) && b.findings != []
                 else if b.source == other then b == Batch(other, s.dataRevision, Normalized(more)) && b.findings != []
                 else b in s.batches
  {
    var first := ApplyFindings(s, source, s.dataRevision, findings).0;
    ApplyFindingsIsSound(d, s, source, s.dataRevision, findings);
    BatchesAfter(d, s, source, findings);
    BatchesAfter(d, first, other, more);
    hide ApplyFindings, Normalized, Sound;
  }

  /** Sources do not interfere: the order in which two of them report does not matter. */
  lemma SourcesCommute(d: Definition, s: State, source: Bytes, findings: seq<Finding>, other: Bytes, more: seq<Finding>)
    requires Sound(d, s) && source != other
    ensures var r := s.dataRevision;
            ApplyFindings(ApplyFindings(s, source, r, findings).0, other, r, more).0
            == ApplyFindings(ApplyFindings(s, other, r, more).0, source, r, findings).0
  {
    hide ApplyFindings, Normalized, Sound, SortedSources;
    var r := s.dataRevision;
    var first, second := ApplyFindings(s, source, r, findings).0, ApplyFindings(s, other, r, more).0;
    FindingsChangeOnlyBatches(s, source, findings);
    FindingsChangeOnlyBatches(s, other, more);
    FindingsChangeOnlyBatches(first, other, more);
    FindingsChangeOnlyBatches(second, source, findings);
    StepsAreIndependent(d, s, source, findings, other, more);
    StepsAreIndependent(d, s, other, more, source, findings);
    BothBatches(d, s, source, findings, other, more);
    BothBatches(d, s, other, more, source, findings);
    SortedBatchesAreUnique(ApplyFindings(first, other, r, more).0.batches, ApplyFindings(second, source, r, findings).0.batches);
  }

  /** Whether a report changes anything does not depend on what another source reported before. */
  lemma StepsAreIndependent(d: Definition, s: State, source: Bytes, findings: seq<Finding>, other: Bytes, more: seq<Finding>)
    requires Sound(d, s) && source != other
    ensures var r, t := s.dataRevision, ApplyFindings(s, source, s.dataRevision, findings).0;
            ApplyFindings(t, other, r, more).0.stateRevision - t.stateRevision
            == ApplyFindings(s, other, r, more).0.stateRevision - s.stateRevision
  {
    var t := ApplyFindings(s, source, s.dataRevision, findings).0;
    ApplyFindingsIsSound(d, s, source, s.dataRevision, findings);
    AppliedFindingsAreStored(d, s, source, findings, other);
    StepOfFindings(d, s, other, more);
    StepOfFindings(d, t, other, more);
  }

  /** A report changes the state exactly when it changes what is stored for its source. */
  lemma StepOfFindings(d: Definition, s: State, source: Bytes, findings: seq<Finding>)
    requires Sound(d, s)
    ensures ApplyFindings(s, source, s.dataRevision, findings).0.stateRevision
         == if Normalized(findings) == FindingsOf(s, source) then s.stateRevision else s.stateRevision + 1
    ensures Normalized(findings) == FindingsOf(s, source) ==> ApplyFindings(s, source, s.dataRevision, findings).0 == s
  {
    hide Normalized, SortedFindings;
  }

  /** Reporting the same again changes nothing. */
  lemma ReportingTwiceIsReportingOnce(d: Definition, s: State, source: Bytes, findings: seq<Finding>)
    requires Sound(d, s)
    ensures var t := ApplyFindings(s, source, s.dataRevision, findings).0;
            ApplyFindings(t, source, s.dataRevision, findings).0 == t
  {
    var t := ApplyFindings(s, source, s.dataRevision, findings).0;
    ApplyFindingsIsSound(d, s, source, s.dataRevision, findings);
    AppliedFindingsAreStored(d, s, source, findings, source);
    StepOfFindings(d, t, source, findings);
  }
}
