/** The enum to database-code mapping of DBCodeAttribute.cs. Reflection over
    an enum type is replaced by the table of its members, the public static
    literal fields, in declaration order: each field has a name, an
    underlying integer value and, when it is decorated with a
    DBCodeAttribute, that attribute's code. GetFields also returns the
    instance field `value__`, which carries no attribute, so no query ever
    selects it and the table leaves it out. A code is a
    .NET string and may be null, so it is an `Option<string>`. */
module DBCode {
  import opened Wrappers

  /** A field of the enum type as reflection lists it. */
  datatype Field = Field(name: string, value: int, attribute: Option<Option<string>>)

  /** The zero value `default(T)` of every enum type. */
  const DefaultValue := 0

  /** The field at `i` carries a DBCodeAttribute and has the value `v`. */
  predicate CodedWithValue(fields: seq<Field>, i: int, v: int)
  {
    0 <= i < |fields| && fields[i].attribute.Some? && fields[i].value == v
  }

  /** The field at `i` carries a DBCodeAttribute whose code is `code`. */
  predicate CodedWithCode(fields: seq<Field>, i: int, code: Option<string>)
  {
    0 <= i < |fields| && fields[i].attribute == Some(code)
  }

  /** `ToCode<T>(enumValue)`: the code of the first field, in declaration
      order, that has a DBCodeAttribute and whose value equals `enumValue`;
      `FirstOrDefault` on strings, so null (`None`) when none matches. */
  function ToCode(fields: seq<Field>, enumValue: int): (r: Option<string>)
    ensures (forall i :: 0 <= i < |fields| ==> !CodedWithValue(fields, i, enumValue)) ==> r == None
    ensures (exists i :: CodedWithValue(fields, i, enumValue)) ==>
      exists i :: CodedWithValue(fields, i, enumValue) && r == fields[i].attribute.value &&
        forall j :: 0 <= j < i ==> !CodedWithValue(fields, j, enumValue)
  {
    if fields == [] then None
    else if CodedWithValue(fields, 0, enumValue) then fields[0].attribute.value
    else
      var rest := ToCode(fields[1..], enumValue);
      assert forall i :: 1 <= i < |fields| ==>
        (CodedWithValue(fields, i, enumValue) <==> CodedWithValue(fields[1..], i - 1, enumValue));
      assert forall i :: 0 <= i < |fields| - 1 ==>
        (CodedWithValue(fields[1..], i, enumValue) <==> CodedWithValue(fields, i + 1, enumValue));
      rest
  }

  /** `ToEnum<T>(code)`: the value of the first field, in declaration order,
      whose DBCodeAttribute's code equals `code` (ordinal string equality;
      two nulls are equal); `default(T)`, that is 0, when none matches. */
  function ToEnum(fields: seq<Field>, code: Option<string>): (r: int)
    ensures (forall i :: 0 <= i < |fields| ==> !CodedWithCode(fields, i, code)) ==> r == DefaultValue
    ensures (exists i :: CodedWithCode(fields, i, code)) ==>
      exists i :: CodedWithCode(fields, i, code) && r == fields[i].value &&
        forall j :: 0 <= j < i ==> !CodedWithCode(fields, j, code)
  {
    if fields == [] then DefaultValue
    else if CodedWithCode(fields, 0, code) then fields[0].value
    else
      var rest := ToEnum(fields[1..], code);
      assert forall i :: 1 <= i < |fields| ==>
        (CodedWithCode(fields, i, code) <==> CodedWithCode(fields[1..], i - 1, code));
      assert forall i :: 0 <= i < |fields| - 1 ==>
        (CodedWithCode(fields[1..], i, code) <==> CodedWithCode(fields, i + 1, code));
      rest
  }

  /** The conditions the doc-comments ask of an enum used with these
      helpers: every field is decorated, and neither two values nor two
      codes coincide. */
  predicate WellCoded(fields: seq<Field>)
  {
    (forall i :: 0 <= i < |fields| ==> fields[i].attribute.Some?) &&
    (forall i, j :: 0 <= i < j < |fields| ==> fields[i].value != fields[j].value) &&
    (forall i, j :: 0 <= i < j < |fields| ==> fields[i].attribute != fields[j].attribute)
  }

  /** On a well-coded enum the code of a field's value is that field's code. */
  lemma ToCodeOfField(fields: seq<Field>, k: int)
    requires WellCoded(fields) && 0 <= k < |fields|
    ensures ToCode(fields, fields[k].value) == fields[k].attribute.value
  {
    assert CodedWithValue(fields, k, fields[k].value);
  }

  /** On a well-coded enum the value of a field's code is that field's value. */
  lemma ToEnumOfField(fields: seq<Field>, k: int)
    requires WellCoded(fields) && 0 <= k < |fields|
    ensures ToEnum(fields, fields[k].attribute.value) == fields[k].value
  {
    assert CodedWithCode(fields, k, fields[k].attribute.value);
  }

  /** Round trip from values: ToEnum undoes ToCode for every member. */
  lemma EnumCodeRoundTrip(fields: seq<Field>, e: int)
    requires WellCoded(fields)
    requires exists k :: 0 <= k < |fields| && fields[k].value == e
    ensures ToEnum(fields, ToCode(fields, e)) == e
  {
    var k :| 0 <= k < |fields| && fields[k].value == e;
    ToCodeOfField(fields, k);
    ToEnumOfField(fields, k);
  }

  /** Round trip from codes: ToCode undoes ToEnum for every code in use. */
  lemma CodeEnumRoundTrip(fields: seq<Field>, code: Option<string>)
    requires WellCoded(fields)
    requires exists k :: 0 <= k < |fields| && fields[k].attribute == Some(code)
    ensures ToCode(fields, ToEnum(fields, code)) == code
  {
    var k :| 0 <= k < |fields| && fields[k].attribute == Some(code);
    ToEnumOfField(fields, k);
    ToCodeOfField(fields, k);
  }
}
