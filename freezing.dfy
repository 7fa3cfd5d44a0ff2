/**
 * `VBertFt.get_variables_to_train`: the trainable variables whose name
 * contains none of the configured frozen-variable patterns.
 */
module Freezing {

  /** A trainable variable; its identity is the object, its name `var.op.name`. */
  class Variable {
    const opName: string

    constructor (opName: string)
      ensures this.opName == opName
    {
      this.opName := opName;
    }
  }

  /** `pattern in name` on Python strings: `pattern` occurs in `name` at some offset. */
  predicate IsSubstring(pattern: string, name: string)
    decreases |name|
    ensures IsSubstring(pattern, name) ==> |pattern| <= |name|
    ensures pattern <= name ==> IsSubstring(pattern, name)
  {
    |pattern| <= |name| && (name[..|pattern|] == pattern || IsSubstring(pattern, name[1..]))
  }

  /** `pattern` occurs in `name` starting at offset `i`. */
  predicate OccursAt(pattern: string, name: string, i: int) {
    0 <= i <= |name| - |pattern| && name[i..i + |pattern|] == pattern
  }

  /** The substring test finds an occurrence exactly when one exists. */
  lemma {:induction false} IsSubstringIffOccurs(pattern: string, name: string)
    decreases |name|
    ensures IsSubstring(pattern, name) <==> exists i :: OccursAt(pattern, name, i)
  {
    if |pattern| <= |name| {
      if name[..|pattern|] == pattern {
        assert OccursAt(pattern, name, 0);
      } else {
        assert !OccursAt(pattern, name, 0);
        if |name| > 0 {
          IsSubstringIffOccurs(pattern, name[1..]);
          forall i ensures OccursAt(pattern, name[1..], i) <==> OccursAt(pattern, name, i + 1) {
            if 0 <= i <= |name| - 1 - |pattern| {
              assert name[1..][i..i + |pattern|] == name[i + 1..i + 1 + |pattern|];
            }
          }
          if exists i :: OccursAt(pattern, name, i) {
            var i :| OccursAt(pattern, name, i);
            assert OccursAt(pattern, name[1..], i - 1);
          }
        }
      }
    }
  }

  /** The empty pattern occurs in every name. */
  lemma {:induction false} EmptyPatternMatchesAll(name: string)
    ensures IsSubstring("", name)
  {
    assert name[..0] == "";
  }

  /** Some pattern occurs in the variable's name. */
  ghost predicate Matches(v: Variable, patterns: seq<string>) {
    exists j :: 0 <= j < |patterns| && IsSubstring(patterns[j], v.opName)
  }

  /** The matching variables of `vs`, in order, one entry for each entry of `vs`. */
  ghost function MatchingVariables(vs: seq<Variable>, patterns: seq<string>): (r: seq<Variable>)
    ensures |r| <= |vs|
    ensures forall v :: v in r ==> v in vs && Matches(v, patterns)
  {
    if |vs| == 0 then []
    else MatchingVariables(vs[..|vs| - 1], patterns) + (if Matches(vs[|vs| - 1], patterns) then [vs[|vs| - 1]] else [])
  }

  /** The matching variables are those of `vs` that match, each as often as it occurs in `vs`. */
  lemma {:induction false} MatchingVariablesCounts(vs: seq<Variable>, patterns: seq<string>)
    ensures forall v :: multiset(MatchingVariables(vs, patterns))[v] == if Matches(v, patterns) then multiset(vs)[v] else 0
  {
    if |vs| > 0 {
      var init, last := vs[..|vs| - 1], vs[|vs| - 1];
      MatchingVariablesCounts(init, patterns);
      assert vs == init + [last];
    }
  }

  /** The loop that collects the frozen variables: the first matching pattern records the variable and stops the scan. */
  method FrozenVariables(trainable: seq<Variable>, patterns: seq<string>) returns (frozen: seq<Variable>)
    ensures frozen == MatchingVariables(trainable, patterns)
    ensures forall v :: v in frozen <==> v in trainable && Matches(v, patterns)
  {
    frozen := [];
    var i := 0;
    while i < |trainable|
      invariant 0 <= i <= |trainable|
      invariant frozen == MatchingVariables(trainable[..i], patterns)
    {
      var v := trainable[i];
      assert trainable[..i + 1][..i] == trainable[..i];
      var j := 0;
      while j < |patterns|
        invariant 0 <= j <= |patterns|
        invariant forall j' :: 0 <= j' < j ==> !IsSubstring(patterns[j'], v.opName)
        invariant frozen == MatchingVariables(trainable[..i], patterns)
      {
        if IsSubstring(patterns[j], v.opName) {
          frozen := frozen + [v];
          break;
        }
        j := j + 1;
      }
      assert frozen == MatchingVariables(trainable[..i + 1], patterns);
      i := i + 1;
    }
    assert trainable[..i] == trainable;
    MatchingVariablesCounts(trainable, patterns);
    forall v ensures v in frozen <==> v in trainable && Matches(v, patterns) {
      assert v in frozen <==> multiset(frozen)[v] > 0;
      assert v in trainable <==> multiset(trainable)[v] > 0;
    }
  }

  /** `list(set(trainable_variables) - set(frozen_variables))`, as the set it is built from. */
  method GetVariablesToTrain(trainable: seq<Variable>, patterns: seq<string>) returns (varList: set<Variable>)
    ensures varList == set v | v in trainable && !Matches(v, patterns)
    ensures forall v :: v in varList ==> v in trainable
    ensures patterns == [] ==> varList == set v | v in trainable
  {
    var frozen := FrozenVariables(trainable, patterns);
    varList := (set v | v in trainable) - (set v | v in frozen);
  }

  /** Configuring the empty pattern freezes every variable. */
  lemma EmptyPatternFreezesAll(trainable: seq<Variable>, patterns: seq<string>)
    requires "" in patterns
    ensures forall v :: v in trainable ==> Matches(v, patterns)
  {
    forall v | v in trainable ensures Matches(v, patterns) {
      var j :| 0 <= j < |patterns| && patterns[j] == "";
      EmptyPatternMatchesAll(v.opName);
    }
  }
}
