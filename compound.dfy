/**
 * A compound definition of the registry: a data record whose `Check` runs an ordered
 * list of validation rules (the first violated rule decides the error), with one side
 * effect (an alpha of exactly 0 is taken as "unset" and replaced by 1), and whose
 * equality and hash depend on the internal name alone.
 */
module Compounds {
  import opened Primitives
  import opened Godot

  /** `MathUtils.EPSILON`: a positive tolerance whose exact value is not part of the model. */
  type Tolerance = e: real | 0.0 < e witness 1.0
  const EPSILON: Tolerance

  /** Why `Check` rejects a compound; one constructor per rule, in the rules' order. */
  datatype Violation = NoName | AlphaNotOne | BlackColour | NonPositiveVolume

  /** The exception `Check` throws: the entry's name, the registry type's name and the reason. */
  datatype InvalidRegistryData = InvalidRegistryData(entryName: string, typeName: string, reason: Violation)

  /** One validation rule, already evaluated: whether it holds, and what to report if not. */
  datatype Rule = Rule(holds: bool, violation: Violation)

  /** Rule `i` is the first rule of `rules` that does not hold. */
  ghost predicate FirstBrokenAt(rules: seq<Rule>, i: nat)
  {
    i < |rules| && !rules[i].holds && forall j :: 0 <= j < i ==> rules[j].holds
  }

  /**
   * The reference semantics of a sequence of early-exit guards: the violation of the
   * first rule that does not hold, or None when every rule holds.
   */
  function FirstViolation(rules: seq<Rule>): (r: Option<Violation>)
    ensures r == None <==> forall i :: 0 <= i < |rules| ==> rules[i].holds
    ensures r.Some? ==> exists i: nat :: FirstBrokenAt(rules, i) && rules[i].violation == r.value
  {
    if rules == [] then None
    else if !rules[0].holds then
      assert FirstBrokenAt(rules, 0);
      Some(rules[0].violation)
    else
      var r := FirstViolation(rules[1..]);
      assert r.Some? ==> exists i: nat :: FirstBrokenAt(rules, i) && rules[i].violation == r.value by {
        if r.Some? {
          var k: nat :| FirstBrokenAt(rules[1..], k) && rules[1..][k].violation == r.value;
          assert FirstBrokenAt(rules, k + 1);
        }
      }
      r
  }

  /** `!string.IsNullOrEmpty(name)`. */
  predicate HasName(name: Option<string>)
  {
    name.Some? && name.value != ""
  }

  /** An alpha of exactly 0 means "never set" and becomes 1; every other colour is kept. */
  function CoerceAlpha(c: Color): (d: Color)
    ensures d.a != 0.0
    ensures d.(a := c.a) == c
    ensures c.a != 0.0 ==> d == c
    ensures c.a == 0.0 ==> d.a == 1.0
  {
    if c.a == 0.0 then c.(a := 1.0) else c
  }

  predicate AlphaIsOne(a: real)
  {
    Abs(a - 1.0) <= EPSILON
  }

  /** Red, green and blue are all within the tolerance of 0. */
  predicate IsBlack(c: Color)
  {
    Abs(c.r) < EPSILON && Abs(c.g) < EPSILON && Abs(c.b) < EPSILON
  }

  /** The rules of `Check` in the order it applies them, over the colour as coerced. */
  function Rules(name: Option<string>, colour: Color, volume: real): seq<Rule>
  {
    var c := CoerceAlpha(colour);
    [ Rule(HasName(name), NoName),
      Rule(AlphaIsOne(c.a), AlphaNotOne),
      Rule(!IsBlack(c), BlackColour),
      Rule(volume > 0.0, NonPositiveVolume) ]
  }

  /**
   * What `Check` decides for a record with these fields: None when it is accepted,
   * otherwise the first violated rule. Each outcome is characterised exactly: the record
   * is accepted iff every rule holds, and a rule is reported iff all earlier rules hold
   * and it does not.
   */
  function Verdict(name: Option<string>, colour: Color, volume: real): (r: Option<Violation>)
    ensures r == None <==>
      HasName(name) && AlphaIsOne(CoerceAlpha(colour).a) && !IsBlack(colour) && volume > 0.0
    ensures r == Some(NoName) <==> !HasName(name)
    ensures r == Some(AlphaNotOne) <==> HasName(name) && !AlphaIsOne(CoerceAlpha(colour).a)
    ensures r == Some(BlackColour) <==>
      HasName(name) && AlphaIsOne(CoerceAlpha(colour).a) && IsBlack(colour)
    ensures r == Some(NonPositiveVolume) <==>
      HasName(name) && AlphaIsOne(CoerceAlpha(colour).a) && !IsBlack(colour) && volume <= 0.0
  {
    var rules := Rules(name, colour, volume);
    var r := FirstViolation(rules);
    assert IsBlack(CoerceAlpha(colour)) == IsBlack(colour);
    assert |rules| == 4 && rules[0].holds == HasName(name) &&
      rules[1].holds == AlphaIsOne(CoerceAlpha(colour).a) &&
      rules[2].holds == !IsBlack(colour) && rules[3].holds == (volume > 0.0);
    assert r.Some? ==> exists i: nat :: FirstBrokenAt(rules, i) && rules[i].violation == r.value;
    r
  }

  /** The colour a record holds after `Check`: coerced once the name rule has passed. */
  function ColourAfterCheck(name: Option<string>, colour: Color): (c: Color)
    ensures !HasName(name) ==> c == colour
    ensures colour.a != 0.0 ==> c == colour
    ensures c.(a := colour.a) == colour
  {
    if HasName(name) then CoerceAlpha(colour) else colour
  }

  /** The exception, if any, that `Check(entryName)` throws for a verdict. */
  function Report(entryName: string, verdict: Option<Violation>): (r: Outcome<InvalidRegistryData>)
    ensures r.Pass? <==> verdict.None?
    ensures r.Fail? ==> r.error == InvalidRegistryData(entryName, "Compound", verdict.value)
  {
    match verdict
    case None => Pass
    case Some(v) => Fail(InvalidRegistryData(entryName, "Compound", v))
  }

  class Compound {
    /** Display name; None stands for a null string. */
    var Name: Option<string>
    var Volume: real
    var IsCloud: bool
    var IsAlwaysUseful: bool
    var IsEnvironmental: bool
    var Colour: Color
    /** Registry key; None stands for a null string. */
    var InternalName: Option<string>

    /** A record as the registry loader allocates it, before any field is filled in. */
    constructor ()
      ensures Name == None && InternalName == None
      ensures Volume == 0.0 && Colour == Color(0.0, 0.0, 0.0, 0.0)
      ensures !IsCloud && !IsAlwaysUseful && !IsEnvironmental
    {
      Name := None;
      Volume := 0.0;
      IsCloud, IsAlwaysUseful, IsEnvironmental := false, false, false;
      Colour := Color(0.0, 0.0, 0.0, 0.0);
      InternalName := None;
    }

    /**
     * Validates the record; `entryName` only labels the error. The frame says that the
     * colour is the one field it may change; the colour changes only after the name rule
     * has passed, and then only an alpha of 0.
     */
    method Check(entryName: string) returns (r: Outcome<InvalidRegistryData>)
      modifies this`Colour
      ensures r == Report(entryName, Verdict(Name, old(Colour), Volume))
      ensures Colour == ColourAfterCheck(Name, old(Colour))
    {
      if !HasName(Name) {
        return Fail(InvalidRegistryData(entryName, "Compound", NoName));
      }

      // Guards against an alpha that was never set
      if Colour.a == 0.0 {
        Colour := Colour.(a := 1.0);
      }

      if Abs(Colour.a - 1.0) > EPSILON {
        return Fail(InvalidRegistryData(entryName, "Compound", AlphaNotOne));
      }

      if Abs(Colour.r) < EPSILON && Abs(Colour.g) < EPSILON && Abs(Colour.b) < EPSILON {
        return Fail(InvalidRegistryData(entryName, "Compound", BlackColour));
      }

      if Volume <= 0.0 {
        return Fail(InvalidRegistryData(entryName, "Compound", NonPositiveVolume));
      }

      r := Pass;
    }

    /** `GetHashCode`: the string hash of the internal name, or 0 for a null name. */
    function GetHashCode(stringHash: string -> int32): (h: int32)
      reads this`InternalName
      ensures InternalName == None ==> h == 0
      ensures InternalName.Some? ==> h == stringHash(InternalName.value)
    {
      match InternalName
      case None => 0
      case Some(s) => stringHash(s)
    }

    /** `Equals(object)`: the same object, or a compound with the same internal name. */
    function Equals(obj: Compound?): (eq: bool)
      reads this`InternalName, (if obj == null then {} else {obj})`InternalName
      ensures obj == this ==> eq
      ensures eq ==> obj != null
    {
      obj == this || (obj != null && InternalName == obj.InternalName)
    }
  }

  /** A record whose name is missing or empty fails on the name, whatever its other fields. */
  lemma MissingNameFailsFirst(name: Option<string>, colour: Color, volume: real)
    requires name == None || name == Some("")
    ensures Verdict(name, colour, volume) == Some(NoName)
    ensures ColourAfterCheck(name, colour) == colour
  {
  }

  /** An alpha of exactly 0 never causes the alpha rule to fail. */
  lemma ZeroAlphaNeverFailsAlpha(name: Option<string>, colour: Color, volume: real)
    requires colour.a == 0.0
    ensures Verdict(name, colour, volume) != Some(AlphaNotOne)
    ensures HasName(name) ==> ColourAfterCheck(name, colour).a == 1.0
  {
    assert AlphaIsOne(CoerceAlpha(colour).a);
  }

  /** Re-running `Check` on the state one `Check` left behind reaches the same verdict and changes nothing. */
  lemma RecheckIsStable(name: Option<string>, colour: Color, volume: real)
    ensures var after := ColourAfterCheck(name, colour);
      Verdict(name, after, volume) == Verdict(name, colour, volume) &&
      ColourAfterCheck(name, after) == after
  {
  }

  /** In particular a second `Check` after a successful one also succeeds and leaves the colour as it is. */
  lemma RecheckAfterSuccess(name: Option<string>, colour: Color, volume: real)
    requires Verdict(name, colour, volume) == None
    ensures var after := ColourAfterCheck(name, colour);
      Verdict(name, after, volume) == None && ColourAfterCheck(name, after) == after &&
      AlphaIsOne(after.a)
  {
    RecheckIsStable(name, colour, volume);
  }

  /** Opaque black with a name fails as black. */
  lemma OpaqueBlackFails()
    ensures Verdict(Some("X"), Color(0.0, 0.0, 0.0, 1.0), 1.0) == Some(BlackColour)
  {
    assert AlphaIsOne(1.0);
  }

  /** Green with an unset alpha is accepted and leaves with alpha 1, for any tolerance up to 1. */
  lemma UnsetAlphaGreenAccepted()
    requires EPSILON <= 1.0
    ensures Verdict(Some("Glucose"), Color(0.0, 1.0, 0.0, 0.0), 1.0) == None
    ensures ColourAfterCheck(Some("Glucose"), Color(0.0, 1.0, 0.0, 0.0)) == Color(0.0, 1.0, 0.0, 1.0)
  {
    assert AlphaIsOne(1.0);
    assert !IsBlack(Color(0.0, 1.0, 0.0, 1.0));
  }

  /** A volume of 0 on an otherwise valid record fails on the volume. */
  lemma ZeroVolumeFails()
    requires EPSILON <= 1.0
    ensures Verdict(Some("X"), Color(0.0, 1.0, 0.0, 1.0), 0.0) == Some(NonPositiveVolume)
  {
    assert AlphaIsOne(1.0);
    assert !IsBlack(Color(0.0, 1.0, 0.0, 1.0));
  }

  /** `Equals` is an equivalence relation. */
  lemma EqualsIsEquivalence(a: Compound, b: Compound, c: Compound)
    ensures a.Equals(a)
    ensures a.Equals(b) ==> b.Equals(a)
    ensures a.Equals(b) && b.Equals(c) ==> a.Equals(c)
  {
  }

  /** Compounds are equal exactly when their internal names are, whatever their other fields. */
  lemma EqualsIffSameInternalName(a: Compound, b: Compound)
    ensures a.Equals(b) <==> a.InternalName == b.InternalName
  {
  }

  /** Equal compounds have equal hash codes, for every string hash. */
  lemma EqualsImpliesSameHash(a: Compound, b: Compound, stringHash: string -> int32)
    requires a.Equals(b)
    ensures a.GetHashCode(stringHash) == b.GetHashCode(stringHash)
  {
  }
}
