/** The two if-chains that translate catalog type names into JSON-Schema types (when a
    table is created) and back (when the registry is read). */
module TypeMapping {
  import opened Results
  import opened Text

  predicate IsVarchar(d: string) { EqualsIgnoreCase(d, "VARCHAR") }
  predicate IsDouble(d: string) { EqualsIgnoreCase(d, "DOUBLE") }
  predicate IsBigint(d: string) { EqualsIgnoreCase(d, "BIGINT") }
  predicate IsBoolean(d: string) { EqualsIgnoreCase(d, "BOOLEAN") }
  predicate IsInteger(d: string) { EqualsIgnoreCase(d, "integer") }

  predicate IsSupportedTypeName(d: string) {
    IsVarchar(d) || IsDouble(d) || IsBigint(d) || IsBoolean(d) || IsInteger(d)
  }

  /** At most one of the five type names matches a display name. */
  lemma {:induction false} TypeNamesExclusive(d: string)
    ensures IsVarchar(d) ==> !IsBoolean(d) && !IsInteger(d)
    ensures IsBoolean(d) ==> !IsInteger(d)
    ensures IsDouble(d) ==> !IsBigint(d)
  {
    if |d| > 0 {
      assert IsVarchar(d) ==> LowerChar(d[0]) == 'v';
      assert IsBoolean(d) ==> LowerChar(d[0]) == 'b';
      assert IsInteger(d) ==> LowerChar(d[0]) == 'i';
      assert IsDouble(d) ==> LowerChar(d[0]) == 'd';
      assert IsBigint(d) ==> LowerChar(d[0]) == 'b';
    }
  }

  /** The JSON type written for a column whose type has display name `d`; the empty
      string when the name is none of the five recognised ones. */
  function ToJsonType(d: string): (t: string)
    ensures IsVarchar(d) ==> t == "string"
    ensures IsDouble(d) ==> t == "number"
    ensures IsBigint(d) || IsInteger(d) ==> t == "integer"
    ensures IsBoolean(d) ==> t == "boolean"
    ensures t == "" <==> !IsSupportedTypeName(d)
  {
    TypeNamesExclusive(d);
    if IsVarchar(d) then "string"
    else if IsDouble(d) then "number"
    else if IsBigint(d) then "integer"
    else if IsBoolean(d) then "boolean"
    else if IsInteger(d) then "integer"
    else ""
  }

  predicate IsSupportedJsonType(j: string) {
    EqualsIgnoreCase(j, "string") || EqualsIgnoreCase(j, "number") ||
    EqualsIgnoreCase(j, "integer") || EqualsIgnoreCase(j, "boolean")
  }

  /** At most one of the four JSON type names matches a stored type. */
  lemma {:induction false} JsonTypesExclusive(j: string)
    ensures EqualsIgnoreCase(j, "string") ==> !EqualsIgnoreCase(j, "number")
    ensures EqualsIgnoreCase(j, "integer") ==> !EqualsIgnoreCase(j, "boolean")
  {
    if |j| > 0 {
      assert EqualsIgnoreCase(j, "string") ==> LowerChar(j[0]) == 's';
      assert EqualsIgnoreCase(j, "number") ==> LowerChar(j[0]) == 'n';
      assert EqualsIgnoreCase(j, "integer") ==> LowerChar(j[0]) == 'i';
      assert EqualsIgnoreCase(j, "boolean") ==> LowerChar(j[0]) == 'b';
    }
  }

  /** The catalog type read back for a stored JSON type; None stands for the
      INVALID_TABLE_PROPERTY exception. */
  function ToCatalogType(j: string): (r: Option<string>)
    ensures EqualsIgnoreCase(j, "string") ==> r == Some("VARCHAR")
    ensures EqualsIgnoreCase(j, "number") ==> r == Some("DOUBLE")
    ensures EqualsIgnoreCase(j, "integer") ==> r == Some("BIGINT")
    ensures EqualsIgnoreCase(j, "boolean") ==> r == Some("BOOLEAN")
    ensures r.None? <==> !IsSupportedJsonType(j)
  {
    JsonTypesExclusive(j);
    if EqualsIgnoreCase(j, "string") then Some("VARCHAR")
    else if EqualsIgnoreCase(j, "number") then Some("DOUBLE")
    else if EqualsIgnoreCase(j, "integer") then Some("BIGINT")
    else if EqualsIgnoreCase(j, "boolean") then Some("BOOLEAN")
    else None
  }

  /** Reading back what was written gives a supported type the same catalog type (up to
      case), except INTEGER, which returns as BIGINT; the result re-encodes to the same
      JSON type. An unsupported type is written as "" and cannot be read back. */
  lemma {:induction false} ReadBackWritten(d: string)
    ensures IsSupportedTypeName(d) ==>
      var c := ToCatalogType(ToJsonType(d));
      c.Some? && ToJsonType(c.value) == ToJsonType(d) &&
      (if IsInteger(d) then c.value == "BIGINT" else EqualsIgnoreCase(c.value, d))
    ensures !IsSupportedTypeName(d) ==> ToCatalogType(ToJsonType(d)).None?
  {
  }

  /** Writing what was read back gives the stored JSON type in lower case. */
  lemma {:induction false} WriteReadBack(j: string)
    ensures ToCatalogType(j).Some? ==> ToJsonType(ToCatalogType(j).value) == ToLower(j)
  {
    EqualsIgnoreCaseIffSameLower(j, "string");
    EqualsIgnoreCaseIffSameLower(j, "number");
    EqualsIgnoreCaseIffSameLower(j, "integer");
    EqualsIgnoreCaseIffSameLower(j, "boolean");
  }

  /** The catalog type a supported column type comes back as after being written and
      read: INTEGER and BIGINT both come back as BIGINT. */
  function ReadBackTypeName(d: string): string
    requires IsSupportedTypeName(d)
  {
    if IsVarchar(d) then "VARCHAR"
    else if IsDouble(d) then "DOUBLE"
    else if IsBoolean(d) then "BOOLEAN"
    else "BIGINT"
  }

  /** Writing a supported type and reading it back gives `ReadBackTypeName`. */
  lemma {:induction false} ReadBackAgrees(d: string)
    requires IsSupportedTypeName(d)
    ensures ToCatalogType(ToJsonType(d)) == Some(ReadBackTypeName(d))
  {
    TypeNamesExclusive(d);
  }
}
