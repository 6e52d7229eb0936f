/** The capability probe the plugin runs over a radiator's runtime type: pick
    the members that look like a radius and like a powered/active switch, and
    read the switch as a boolean, failing open. */
module Reflection {
  import opened Common
  import opened Text

  /** A boxed member value, by runtime type. `Other` stands for every value
      the converter does not match by type; it carries the value's `ToString`. */
  datatype Value =
    | Null
    | Bool(b: bool)
    | SByte(i: int)
    | Byte(n: nat)
    | Int16(i: int)
    | UInt16(n: nat)
    | Int32(i: int)
    | UInt32(n: nat)
    | Int64(i: int)
    | UInt64(n: nat)
    | Other(text: string)

  /** Invariant-culture `ToString` of a signed integer. */
  function SignedDecimal(i: int): string
  {
    if i < 0 then "-" + Decimal(-i) else Decimal(i)
  }

  /** `ToString` of the values that reach the textual fallback. */
  function ValueText(v: Value): string
  {
    match v
    case Int16(i) => SignedDecimal(i)
    case UInt16(n) => Decimal(n)
    case Other(t) => t
    case _ => ""
  }

  /** `bool.TryParse`: "true" or "false" in any letter case, surrounding white
      space and NUL ignored. */
  function ParseBool(s: string): (r: Option<bool>)
    ensures r == Some(true) <==> PaddedWord(s, "true")
    ensures r == Some(false) <==> PaddedWord(s, "false")
  {
    TrimmedWord(s, "true");
    TrimmedWord(s, "false");
    var t := Lower(Trim(s));
    if t == "true" then Some(true) else if t == "false" then Some(false) else None
  }

  /** `ConvertToBool`: booleans as themselves, the matched integer types as
      "non-zero", everything else through the textual parser, else `fallback`.
      16-bit integers are not among the matched types. */
  function ConvertToBool(v: Value, fallback: bool): (b: bool)
    ensures v.Null? ==> b == fallback
    ensures v.Bool? ==> b == v.b
    ensures Matched(v) ==> (b <==> !IntegralZero(v))
    ensures v.Int16? || v.UInt16? ==> b == fallback
  {
    ShortIntegerTextNotBool(v);
    match v
    case Null => fallback
    case Bool(b) => b
    case Byte(n) => n != 0
    case SByte(i) => i != 0
    case Int32(i) => i != 0
    case UInt32(n) => n != 0
    case Int64(i) => i != 0
    case UInt64(n) => n != 0
    case _ =>
      match ParseBool(ValueText(v))
      case Some(b) => b
      case None => fallback
  }

  /** The integer types the converter matches by type. */
  predicate Matched(v: Value)
  {
    v.Byte? || v.SByte? || v.Int32? || v.UInt32? || v.Int64? || v.UInt64?
  }

  /** Any other value converts by its text: a padded "true" or "false" gives
      that boolean, and any other text the fallback. */
  lemma TextualConversion(t: string, fallback: bool)
    ensures PaddedWord(t, "true") ==> ConvertToBool(Other(t), fallback)
    ensures PaddedWord(t, "false") ==> !ConvertToBool(Other(t), fallback)
    ensures !PaddedWord(t, "true") && !PaddedWord(t, "false") ==> ConvertToBool(Other(t), fallback) == fallback
  {
    var p := ParseBool(t);
    assert ValueText(Other(t)) == t;
  }

  predicate IntegralZero(v: Value)
  {
    v == Byte(0) || v == SByte(0) || v == Int32(0) || v == UInt32(0) || v == Int64(0) || v == UInt64(0)
  }

  /** Decimal text of a 16-bit integer never parses as a boolean. */
  lemma SignedDecimalNotBool(i: int)
    ensures ParseBool(SignedDecimal(i)) == None
  {
    var s := SignedDecimal(i);
    var d := Decimal(if i < 0 then -i else i);
    assert s[|s| - 1] == d[|d| - 1];
    TrimUnchanged(s);
    assert Lower(s)[0] == s[0];
    assert s[0] == '-' || IsDigit(s[0]);
  }

  /** 16-bit integers fall through to the textual parser, which rejects their
      decimal text, so the fallback is returned whatever their value. */
  lemma ShortIntegersGiveFallback(v: Value, fallback: bool)
    requires v.Int16? || v.UInt16?
    ensures ConvertToBool(v, fallback) == fallback
  {
    if v.Int16? {
      SignedDecimalNotBool(v.i);
    } else {
      SignedDecimalNotBool(v.n);
    }
  }

  /** The text a 16-bit integer reaches the parser with is no boolean. */
  lemma ShortIntegerTextNotBool(v: Value)
    ensures v.Int16? || v.UInt16? ==> ParseBool(ValueText(v)) == None
  {
    if v.Int16? {
      SignedDecimalNotBool(v.i);
      assert ValueText(v) == SignedDecimal(v.i);
    } else if v.UInt16? {
      SignedDecimalNotBool(v.n);
      assert ValueText(v) == SignedDecimal(v.n);
    }
  }

  /** Read with fallback `true` (as the probe does), a member switches a
      radiator off exactly when it is `false`, a zero of a matched integer type,
      or text that parses as "false": a missing or unreadable value keeps the
      radiator on. */
  lemma FailOpenReading(v: Value)
    ensures !ConvertToBool(v, true) <==>
      v == Bool(false) || IntegralZero(v) || ((v.Int16? || v.UInt16? || v.Other?) && ParseBool(ValueText(v)) == Some(false))
  {
    if v.Int16? || v.UInt16? {
      ShortIntegersGiveFallback(v, true);
      ShortIntegerTextNotBool(v);
    }
  }

  /** A field or property as the probe sees it: its name, whether it can be
      read (fields always can; properties need a getter), and its value on the
      probed instance. */
  datatype Member = Member(name: string, readable: bool, value: Value)

  datatype Kind = Radius | Active

  /** The member-name heuristic, on the lower-cased name. */
  predicate NameFits(name: string, kind: Kind)
  {
    var l := Lower(name);
    match kind
    case Radius => HasInfix(l, "radius")
    case Active => HasInfix(l, "powered") || HasInfix(l, "active") || HasInfix(l, "enabled")
  }

  /** A member can serve as the accessor for `kind`; properties must also be
      readable. */
  predicate Eligible(m: Member, kind: Kind, property: bool)
  {
    (!property || m.readable) && NameFits(m.name, kind)
  }

  /** Index of the first eligible member, if any. */
  function FirstMatch(ms: seq<Member>, kind: Kind, property: bool): (r: Option<nat>)
    ensures r.Some? ==> r.value < |ms| && Eligible(ms[r.value], kind, property)
    ensures r.Some? ==> forall k :: 0 <= k < r.value ==> !Eligible(ms[k], kind, property)
    ensures r.None? ==> forall k :: 0 <= k < |ms| ==> !Eligible(ms[k], kind, property)
    decreases |ms|
  {
    if |ms| == 0 then None
    else if Eligible(ms[0], kind, property) then Some(0)
    else
      match FirstMatch(ms[1..], kind, property)
      case None => None
      case Some(j) => Some(j + 1)
  }

  datatype Accessor = FieldAt(index: nat) | PropertyAt(index: nat)

  /** The accessors cached for one runtime type. */
  datatype Probe = Probe(radius: Option<Accessor>, active: Option<Accessor>)

  /** Fields take precedence over properties. */
  function Chosen(fields: seq<Member>, props: seq<Member>, kind: Kind): Option<Accessor>
  {
    match FirstMatch(fields, kind, false)
    case Some(i) => Some(FieldAt(i))
    case None =>
      match FirstMatch(props, kind, true)
      case Some(j) => Some(PropertyAt(j))
      case None => None
  }

  /** `r` is what a first-match scan over `ms[..n]` has found. */
  ghost predicate ScannedUpTo(ms: seq<Member>, r: Option<nat>, n: nat, kind: Kind, property: bool)
    requires n <= |ms|
  {
    match r
    case Some(x) => x < n && Eligible(ms[x], kind, property) && forall k :: 0 <= k < x ==> !Eligible(ms[k], kind, property)
    case None => forall k :: 0 <= k < n ==> !Eligible(ms[k], kind, property)
  }

  /** One more element scanned. */
  lemma ScanStep(ms: seq<Member>, r: Option<nat>, n: nat, kind: Kind, property: bool)
    requires n < |ms| && ScannedUpTo(ms, r, n, kind, property)
    ensures ScannedUpTo(ms, if r.None? && Eligible(ms[n], kind, property) then Some(n) else r, n + 1, kind, property)
  {
  }

  /** A scan that has found something, or has seen everything, agrees with `FirstMatch`. */
  lemma ScanDone(ms: seq<Member>, r: Option<nat>, n: nat, kind: Kind, property: bool)
    requires n <= |ms| && ScannedUpTo(ms, r, n, kind, property)
    requires r.Some? || n == |ms|
    ensures r == FirstMatch(ms, kind, property)
  {
  }

  /** Builds the accessor cache for a type the way the plugin does: one pass
      over the fields and, only if that left an accessor missing, one pass over
      the readable properties, each stopping once both accessors are known. */
  method BuildProbe(fields: seq<Member>, props: seq<Member>) returns (probe: Probe)
    ensures probe.radius == Chosen(fields, props, Radius)
    ensures probe.active == Chosen(fields, props, Active)
  {
    var fieldRadius: Option<nat> := None;
    var fieldActive: Option<nat> := None;
    var i := 0;
    while i < |fields| && !(fieldRadius.Some? && fieldActive.Some?)
      invariant 0 <= i <= |fields|
      invariant ScannedUpTo(fields, fieldRadius, i, Radius, false)
      invariant ScannedUpTo(fields, fieldActive, i, Active, false)
    {
      ScanStep(fields, fieldRadius, i, Radius, false);
      ScanStep(fields, fieldActive, i, Active, false);
      if fieldRadius.None? && NameFits(fields[i].name, Radius) {
        fieldRadius := Some(i);
      }
      if fieldActive.None? && NameFits(fields[i].name, Active) {
        fieldActive := Some(i);
      }
      i := i + 1;
    }
    ScanDone(fields, fieldRadius, i, Radius, false);
    ScanDone(fields, fieldActive, i, Active, false);
    var propRadius: Option<nat> := None;
    var propActive: Option<nat> := None;
    var j := 0;
    while j < |props| && !((fieldRadius.Some? || propRadius.Some?) && (fieldActive.Some? || propActive.Some?))
      invariant 0 <= j <= |props|
      invariant fieldRadius.Some? ==> propRadius.None?
      invariant fieldActive.Some? ==> propActive.None?
      invariant fieldRadius.None? ==> ScannedUpTo(props, propRadius, j, Radius, true)
      invariant fieldActive.None? ==> ScannedUpTo(props, propActive, j, Active, true)
    {
      if fieldRadius.None? {
        ScanStep(props, propRadius, j, Radius, true);
      }
      if fieldActive.None? {
        ScanStep(props, propActive, j, Active, true);
      }
      if props[j].readable {
        if fieldRadius.None? && propRadius.None? && NameFits(props[j].name, Radius) {
          propRadius := Some(j);
        }
        if fieldActive.None? && propActive.None? && NameFits(props[j].name, Active) {
          propActive := Some(j);
        }
      }
      j := j + 1;
    }
    if fieldRadius.None? {
      ScanDone(props, propRadius, j, Radius, true);
    }
    if fieldActive.None? {
      ScanDone(props, propActive, j, Active, true);
    }
    probe := Probe(Pick(fieldRadius, propRadius), Pick(fieldActive, propActive));
  }

  function Pick(field: Option<nat>, property: Option<nat>): Option<Accessor>
  {
    if field.Some? then Some(FieldAt(field.value))
    else if property.Some? then Some(PropertyAt(property.value))
    else None
  }

  /** The member an accessor reads, if it is in range. */
  function Read(a: Accessor, fields: seq<Member>, props: seq<Member>): Option<Value>
  {
    match a
    case FieldAt(i) => if i < |fields| then Some(fields[i].value) else None
    case PropertyAt(j) => if j < |props| then Some(props[j].value) else None
  }

  /** `TryGetActive` on a probed instance: the powered flag when the type has a
      switch-like member, read with fallback `true`; no reading otherwise. */
  function ActiveFlag(fields: seq<Member>, props: seq<Member>): (r: Option<bool>)
    ensures r.None? <==> Chosen(fields, props, Active).None?
    ensures r == Some(false) ==> exists v :: Read(Chosen(fields, props, Active).value, fields, props) == Some(v) && !ConvertToBool(v, true)
    ensures Chosen(fields, props, Active).Some? ==>
      r == Some(match Read(Chosen(fields, props, Active).value, fields, props)
                case Some(v) => ConvertToBool(v, true)
                case None => true)
  {
    match Chosen(fields, props, Active)
    case None => None
    case Some(a) =>
      match Read(a, fields, props)
      case Some(v) => Some(ConvertToBool(v, true))
      case None => Some(true)
  }

  /** A probed radiator reads as switched off exactly when its switch-like
      member holds `false`, a zero of a matched integer type, or text that
      parses as "false"; an unreadable member reads as switched on. */
  lemma ActiveFlagOff(fields: seq<Member>, props: seq<Member>)
    ensures ActiveFlag(fields, props) == Some(false) <==>
      && Chosen(fields, props, Active).Some?
      && var v := Read(Chosen(fields, props, Active).value, fields, props);
      && v.Some?
      && (v.value == Bool(false) || IntegralZero(v.value)
          || ((v.value.Int16? || v.value.UInt16? || v.value.Other?) && ParseBool(ValueText(v.value)) == Some(false)))
  {
    var a := Chosen(fields, props, Active);
    if a.Some? {
      var v := Read(a.value, fields, props);
      if v.Some? {
        FailOpenReading(v.value);
      }
    }
  }
}
