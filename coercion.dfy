/**
  ToDBType and GetZero: coercing a value of unknown dynamic type into one of
  the string-based SQL parameter types (VarChar, VarCharMax, NVarCharMax).

  Go's `any` is modelled by a closed datatype listing the dynamic shapes the
  conversion distinguishes; reflection's `Value.String()` is written out for
  each of them.
 */
module Coercion {
  import opened Wrappers

  /** The parameter types; each is a defined type over Go's `string`. */
  datatype ParamKind = VarChar | VarCharMax | NVarCharMax

  /** A value of one of the parameter types: its type and its text. */
  datatype Param = Param(kind: ParamKind, text: string)

  /**
    The dynamic value handed to ToDBType.
    - Nil: the nil interface.
    - Str: a plain `string`.  StrPtr / NilStrPtr: a `*string`, non-nil or nil.
    - Named: a value of a defined type whose kind is string (a `type string2 string`
      or one of the parameter types themselves), with its type name.
      NamedPtr: a non-nil pointer to one.
    - NonString: a value whose type, after at most one pointer dereference, is
      not of string kind; typeName is the name of that (dereferenced) type.
    - NilPtr: a nil pointer of any type other than `*string`.
   */
  datatype Value =
    | Nil
    | Str(s: string)
    | StrPtr(s: string)
    | NilStrPtr
    | Named(typeName: string, s: string)
    | NamedPtr(typeName: string, s: string)
    | NonString(typeName: string)
    | NilPtr(typeName: string)

  /** The run-time failure of the conversion: dereferencing a nil `*string`. */
  datatype Failure = NilDereference

  /** The zero value of a parameter type: the empty text. */
  function GetZero(kind: ParamKind): (r: Param)
    ensures r.kind == kind && |r.text| == 0
  {
    Param(kind, "")
  }

  /**
    What reflection's `Value.String()` gives in the conversion's fallback
    branch, after a pointer has been dereferenced once: the text for a value
    of string kind, `<T Value>` for any other type T, and `<invalid Value>`
    for the invalid value a nil pointer dereferences to.
   */
  function ReflectedText(v: Value): (r: string)
    requires v.Named? || v.NamedPtr? || v.NonString? || v.NilPtr?
    ensures v.Named? || v.NamedPtr? ==> r == v.s
    ensures v.NonString? || v.NilPtr? ==> |r| >= 8 && r[0] == '<' && r[|r| - 7..] == " Value>"
  {
    match v
    case Named(_, s) => s
    case NamedPtr(_, s) => s
    case NonString(t) => "<" + t + " Value>"
    case NilPtr(_) => "<invalid Value>"
  }

  /** Whether a value holds text the conversion passes through: a string or a string-kind value, directly or behind a non-nil pointer. */
  predicate HoldsText(v: Value) {
    v.Str? || v.StrPtr? || v.Named? || v.NamedPtr?
  }

  /**
    The conversion.  Nil becomes the zero value, a string or `*string` its
    text, anything else what reflection prints for it.  A nil `*string` makes
    the source dereference nil: modelled as Err.
   */
  function ToDBType(kind: ParamKind, value: Value): (r: Result<Param, Failure>)
    ensures r.Err? <==> value == NilStrPtr
    ensures r.Ok? ==> r.value.kind == kind
    ensures HoldsText(value) ==> r == Ok(Param(kind, value.s))
  {
    match value
    case Nil => Ok(GetZero(kind))
    case Str(s) => Ok(Param(kind, s))
    case StrPtr(s) => Ok(Param(kind, s))
    case NilStrPtr => Err(NilDereference)
    case _ => Ok(Param(kind, ReflectedText(value)))
  }

  // ---------------------------------------------------------------------
  // Lemmas

  /** A nil value converts to the zero value of the target type. */
  lemma NilIsZero(kind: ParamKind)
    ensures ToDBType(kind, Nil) == Ok(GetZero(kind))
    ensures ToDBType(kind, Nil).value.text == ""
  {
  }

  /** Every way of holding the same text converts to the same parameter. */
  lemma TextFormsAgree(kind: ParamKind, s: string, t: string, u: string)
    ensures ToDBType(kind, Str(s)) == ToDBType(kind, StrPtr(s))
    ensures ToDBType(kind, Str(s)) == ToDBType(kind, Named(t, s))
    ensures ToDBType(kind, Named(t, s)) == ToDBType(kind, NamedPtr(u, s))
  {
  }

  /** The target type decides only the kind: the text is the same for all three. */
  lemma TextIndependentOfKind(k1: ParamKind, k2: ParamKind, value: Value)
    requires value != NilStrPtr
    ensures ToDBType(k1, value).value.text == ToDBType(k2, value).value.text
  {
  }

  /**
    Converting again is stable: a converted parameter is itself a value of a
    string-kind type, and converting it to any parameter type keeps its text.
   */
  lemma ReconvertKeepsText(k1: ParamKind, k2: ParamKind, value: Value, typeName: string)
    requires value != NilStrPtr
    ensures ToDBType(k2, Named(typeName, ToDBType(k1, value).value.text))
         == Ok(Param(k2, ToDBType(k1, value).value.text))
  {
  }

  /** Values that hold no text never convert to the empty text. */
  lemma EmptyTextIff(kind: ParamKind, value: Value)
    requires value != NilStrPtr
    ensures ToDBType(kind, value).value.text == "" <==> value == Nil || (HoldsText(value) && value.s == "")
  {
    if value.NonString? {
      assert ToDBType(kind, value).value.text[0] == '<';
    } else if value.NilPtr? {
      assert ToDBType(kind, value).value.text[0] == '<';
    }
  }

  /** The three conversions of the package's own test, with the text each yields. */
  lemma ConvertSamples()
    ensures ToDBType(VarChar, Str("Sample")) == Ok(Param(VarChar, "Sample"))
    ensures ToDBType(NVarCharMax, Named("string2", "Hey")) == Ok(Param(NVarCharMax, "Hey"))
    ensures ToDBType(NVarCharMax, NamedPtr("string2", "Hey")) == Ok(Param(NVarCharMax, "Hey"))
  {
  }

  /** A value of a non-string type converts to reflection's description of it, not to an error. */
  lemma NonStringDescribed(kind: ParamKind, typeName: string)
    ensures ToDBType(kind, NonString(typeName)) == Ok(Param(kind, "<" + typeName + " Value>"))
    ensures ToDBType(kind, NilPtr(typeName)) == Ok(Param(kind, "<invalid Value>"))
  {
  }
}
