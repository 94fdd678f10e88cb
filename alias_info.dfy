/** Alias information for one operand of an operator: the alias sets the
    value belongs to at the start and at the end of the op, whether the op
    writes through it, and the alias information of each contained type
    (for a list, that of its elements). */
module AliasInfos {
  import opened Symbols

  /** Alias information as a value. `outputSets` is what was stored by
      AddOutputSet; the sets the op reports for its end are OutputSets(). */
  datatype AliasInfoVal = AliasInfoVal(
    inputSets: set<Symbol>,
    outputSets: set<Symbol>,
    contained: seq<AliasInfoVal>,
    isWrite: bool)
  {
    /** The alias sets at the end of the op. In the common case the op does
        not change them, no output set is stored, and the input sets stand in. */
    function OutputSets(): set<Symbol>
    {
      if outputSets == {} then inputSets else outputSets
    }
  }

  /** What a freshly constructed AliasInfo holds. */
  function Empty(): AliasInfoVal
  {
    AliasInfoVal({}, {}, [], false)
  }

  /** One call of a builder operation, with its argument. */
  datatype Call =
    | SetIsWrite(isWrite: bool)
    | AddInputSet(aliasSet: Symbol)
    | AddOutputSet(aliasSet: Symbol)
    | AddContainedType(aliasInfo: AliasInfoVal)

  /** The effect of one builder call on the value. */
  function Apply(v: AliasInfoVal, call: Call): AliasInfoVal
  {
    match call
    case SetIsWrite(b) => v.(isWrite := b)
    case AddInputSet(s) => v.(inputSets := v.inputSets + {s})
    case AddOutputSet(s) => v.(outputSets := v.outputSets + {s})
    case AddContainedType(x) => v.(contained := v.contained + [x])
  }

  /** The value left by a fresh AliasInfo after `calls`, in order. */
  function Build(calls: seq<Call>): AliasInfoVal
  {
    if calls == [] then Empty()
    else Apply(Build(calls[..|calls| - 1]), calls[|calls| - 1])
  }

  // Reference descriptions of what the builder calls leave behind.

  /** Every token passed to AddInputSet. */
  function InputTokens(calls: seq<Call>): set<Symbol>
  {
    set c | c in calls && c.AddInputSet? :: c.aliasSet
  }

  /** Every token passed to AddOutputSet. */
  function OutputTokens(calls: seq<Call>): set<Symbol>
  {
    set c | c in calls && c.AddOutputSet? :: c.aliasSet
  }

  /** True iff no call is an AddOutputSet. */
  predicate NoOutputSetAdded(calls: seq<Call>)
  {
    forall i :: 0 <= i < |calls| ==> !calls[i].AddOutputSet?
  }

  /** The arguments of the AddContainedType calls, in call order. */
  function ContainedArgs(calls: seq<Call>): seq<AliasInfoVal>
  {
    if calls == [] then []
    else (if calls[0].AddContainedType? then [calls[0].aliasInfo] else [])
         + ContainedArgs(calls[1..])
  }

  /** True iff some SetIsWrite(true) is not followed by another SetIsWrite. */
  predicate LastWriteFlag(calls: seq<Call>)
  {
    exists i :: 0 <= i < |calls| && calls[i] == SetIsWrite(true) &&
      forall j :: i < j < |calls| ==> !calls[j].SetIsWrite?
  }

  lemma {:induction false} InputTokensSnoc(calls: seq<Call>, c: Call)
    ensures InputTokens(calls + [c]) ==
      InputTokens(calls) + (if c.AddInputSet? then {c.aliasSet} else {})
  {
    forall s | s in InputTokens(calls + [c])
      ensures s in InputTokens(calls) + (if c.AddInputSet? then {c.aliasSet} else {})
    {
      var d :| d in calls + [c] && d.AddInputSet? && d.aliasSet == s;
      if d != c {
        assert d in calls;
      }
    }
  }

  lemma {:induction false} OutputTokensSnoc(calls: seq<Call>, c: Call)
    ensures OutputTokens(calls + [c]) ==
      OutputTokens(calls) + (if c.AddOutputSet? then {c.aliasSet} else {})
  {
    forall s | s in OutputTokens(calls + [c])
      ensures s in OutputTokens(calls) + (if c.AddOutputSet? then {c.aliasSet} else {})
    {
      var d :| d in calls + [c] && d.AddOutputSet? && d.aliasSet == s;
      if d != c {
        assert d in calls;
      }
    }
  }

  lemma {:induction false} ContainedArgsSnoc(calls: seq<Call>, c: Call)
    ensures ContainedArgs(calls + [c]) ==
      ContainedArgs(calls) + (if c.AddContainedType? then [c.aliasInfo] else [])
  {
    if calls != [] {
      assert (calls + [c])[1..] == calls[1..] + [c];
      ContainedArgsSnoc(calls[1..], c);
    }
  }

  /** The input sets after any builder calls are exactly the tokens passed to
      AddInputSet, each once, whatever else was called in between. */
  lemma {:induction false} BuildInputSets(calls: seq<Call>)
    ensures Build(calls).inputSets == InputTokens(calls)
  {
    if calls != [] {
      var init := calls[..|calls| - 1];
      assert calls == init + [calls[|calls| - 1]];
      BuildInputSets(init);
      InputTokensSnoc(init, calls[|calls| - 1]);
    }
  }

  /** The stored output sets are exactly the tokens passed to AddOutputSet. */
  lemma {:induction false} BuildStoredOutputSets(calls: seq<Call>)
    ensures Build(calls).outputSets == OutputTokens(calls)
  {
    if calls != [] {
      var init := calls[..|calls| - 1];
      assert calls == init + [calls[|calls| - 1]];
      BuildStoredOutputSets(init);
      OutputTokensSnoc(init, calls[|calls| - 1]);
    }
  }

  /** The fallback rule: with no AddOutputSet call, the output sets are the
      input sets (also when both are empty); after at least one, they are
      exactly the tokens passed to AddOutputSet, however many AddInputSet
      calls come later. */
  lemma BuildOutputSets(calls: seq<Call>)
    ensures NoOutputSetAdded(calls) ==> Build(calls).OutputSets() == InputTokens(calls)
    ensures !NoOutputSetAdded(calls) ==> Build(calls).OutputSets() == OutputTokens(calls)
    ensures !NoOutputSetAdded(calls) ==> Build(calls).OutputSets() != {}
  {
    BuildInputSets(calls);
    BuildStoredOutputSets(calls);
    if !NoOutputSetAdded(calls) {
      var i :| 0 <= i < |calls| && calls[i].AddOutputSet?;
      assert calls[i] in calls;
      assert calls[i].aliasSet in OutputTokens(calls);
    } else {
      forall c | c in calls ensures !c.AddOutputSet? {
        var i :| 0 <= i < |calls| && calls[i] == c;
      }
      assert OutputTokens(calls) == {};
    }
  }

  /** The contained types are the arguments of the AddContainedType calls,
      in call order: each call appends, and earlier entries keep their place. */
  lemma {:induction false} BuildContained(calls: seq<Call>)
    ensures Build(calls).contained == ContainedArgs(calls)
  {
    if calls != [] {
      var init := calls[..|calls| - 1];
      assert calls == init + [calls[|calls| - 1]];
      BuildContained(init);
      ContainedArgsSnoc(init, calls[|calls| - 1]);
    }
  }

  /** The write flag is false unless set, and otherwise holds the argument of
      the last SetIsWrite call. */
  lemma {:induction false} BuildIsWrite(calls: seq<Call>)
    ensures Build(calls).isWrite <==> LastWriteFlag(calls)
  {
    if calls != [] {
      var n := |calls| - 1;
      var init := calls[..n];
      BuildIsWrite(init);
      if calls[n].SetIsWrite? {
        if calls[n].isWrite {
          assert calls[n] == SetIsWrite(true);
        }
      } else {
        if LastWriteFlag(init) {
          var i :| 0 <= i < |init| && init[i] == SetIsWrite(true) &&
            forall j :: i < j < |init| ==> !init[j].SetIsWrite?;
          assert calls[i] == SetIsWrite(true);
        }
        if LastWriteFlag(calls) {
          var i :| 0 <= i < |calls| && calls[i] == SetIsWrite(true) &&
            forall j :: i < j < |calls| ==> !calls[j].SetIsWrite?;
          assert init[i] == SetIsWrite(true);
        }
      }
    }
  }

  /** Adding the same input set twice leaves what adding it once leaves. */
  lemma AddInputSetIdempotent(calls: seq<Call>, s: Symbol)
    ensures Build(calls + [AddInputSet(s), AddInputSet(s)]) == Build(calls + [AddInputSet(s)])
  {
    var once := calls + [AddInputSet(s)];
    assert (once + [AddInputSet(s)])[..|once|] == once;
    assert once + [AddInputSet(s)] == calls + [AddInputSet(s), AddInputSet(s)];
  }

  /** The alias information of one operand, updated in place by its builder
      methods. Contained types are held by value. */
  class AliasInfo {
    var inputSets: set<Symbol>
    var outputSets: set<Symbol>
    var containedTypes: seq<AliasInfoVal>
    var isWrite: bool

    /** The state of this object as a value. */
    function Value(): AliasInfoVal
      reads this
    {
      AliasInfoVal(inputSets, outputSets, containedTypes, isWrite)
    }

    constructor ()
      ensures inputSets == {} && outputSets == {} && containedTypes == [] && !isWrite
      ensures Value() == Empty()
    {
      inputSets := {};
      outputSets := {};
      containedTypes := [];
      isWrite := false;
    }

    method SetIsWrite(write: bool)
      modifies this
      ensures isWrite == write
      ensures inputSets == old(inputSets) && outputSets == old(outputSets)
      ensures containedTypes == old(containedTypes)
      ensures Value() == Apply(old(Value()), Call.SetIsWrite(write))
    {
      isWrite := write;
    }

    function IsWrite(): bool
      reads this
    {
      isWrite
    }

    method AddInputSet(aliasSet: Symbol)
      modifies this
      ensures inputSets == old(inputSets) + {aliasSet}
      ensures outputSets == old(outputSets) && containedTypes == old(containedTypes)
      ensures isWrite == old(isWrite)
      ensures Value() == Apply(old(Value()), Call.AddInputSet(aliasSet))
    {
      inputSets := inputSets + {aliasSet};
    }

    method AddOutputSet(aliasSet: Symbol)
      modifies this
      ensures outputSets == old(outputSets) + {aliasSet}
      ensures inputSets == old(inputSets) && containedTypes == old(containedTypes)
      ensures isWrite == old(isWrite)
      ensures OutputSets() == old(outputSets) + {aliasSet}
      ensures Value() == Apply(old(Value()), Call.AddOutputSet(aliasSet))
    {
      outputSets := outputSets + {aliasSet};
    }

    /** At the beginning of the op, the alias sets this value belongs to. */
    function InputSets(): set<Symbol>
      reads this
    {
      inputSets
    }

    /** At the end of the op, the alias sets this value belongs to. */
    function OutputSets(): set<Symbol>
      reads this
    {
      Value().OutputSets()
    }

    /** Appends a copy of the state of `aliasInfo` (which may be this object). */
    method AddContainedType(aliasInfo: AliasInfo)
      modifies this
      ensures containedTypes == old(containedTypes) + [old(aliasInfo.Value())]
      ensures inputSets == old(inputSets) && outputSets == old(outputSets)
      ensures isWrite == old(isWrite)
      ensures Value() == Apply(old(Value()), Call.AddContainedType(old(aliasInfo.Value())))
    {
      containedTypes := containedTypes + [aliasInfo.Value()];
    }

    function ContainedTypes(): seq<AliasInfoVal>
      reads this
    {
      containedTypes
    }
  }
}
