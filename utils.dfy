/**
 * The front end's client-side checks: `validateField`, which answers an error
 * message or null for one form field, and `truncateText`.
 */
module Utils {
  import opened Options

  /**
   * The JavaScript values the form code passes: trimmed strings for the text
   * fields and `parseInt` results (an integer or NaN) for the numeric ones.
   */
  datatype JsValue = Undefined | Null | Str(s: string) | Num(n: int) | NaN

  /** JavaScript truthiness: undefined, null, '', 0 and NaN are falsy. */
  predicate Truthy(v: JsValue)
  {
    match v
    case Undefined => false
    case Null => false
    case Str(s) => s != ""
    case Num(n) => n != 0
    case NaN => false
  }

  /** A value on which the text-field branch can call `.trim()` once it is truthy. */
  predicate TextValue(v: JsValue)
  {
    v.Undefined? || v.Null? || v.Str?
  }

  /** A value as `parseInt` or an absent argument yields it. */
  predicate NumericValue(v: JsValue)
  {
    v.Undefined? || v.Null? || v.Num? || v.NaN?
  }

  /** The characters String.prototype.trim strips: white space and line terminators. */
  predicate IsWhiteSpace(c: char)
  {
    c == ' ' || c == '\t' || c == '\n' || c == '\r' || c == '\U{000B}' || c == '\U{000C}' ||
    c == '\U{00A0}' || c == '\U{1680}' || ('\U{2000}' <= c <= '\U{200A}') ||
    c == '\U{2028}' || c == '\U{2029}' || c == '\U{202F}' || c == '\U{205F}' ||
    c == '\U{3000}' || c == '\U{FEFF}'
  }

  function TrimStart(s: string): (r: string)
    ensures |r| <= |s| && r == s[|s| - |r|..]
    ensures r != [] ==> !IsWhiteSpace(r[0])
    ensures forall i :: 0 <= i < |s| - |r| ==> IsWhiteSpace(s[i])
  {
    if s != [] && IsWhiteSpace(s[0]) then TrimStart(s[1..]) else s
  }

  function TrimEnd(s: string): (r: string)
    ensures |r| <= |s| && r == s[..|r|]
    ensures r != [] ==> !IsWhiteSpace(r[|r| - 1])
    ensures forall i :: |r| <= i < |s| ==> IsWhiteSpace(s[i])
  {
    if s != [] && IsWhiteSpace(s[|s| - 1]) then TrimEnd(s[..|s| - 1]) else s
  }

  /** `s.trim()`. */
  function Trim(s: string): string
  {
    TrimEnd(TrimStart(s))
  }

  /** A string trims to '' exactly when it is all white space. */
  lemma TrimEmptyIff(s: string)
    ensures Trim(s) == "" <==> forall i :: 0 <= i < |s| ==> IsWhiteSpace(s[i])
  {
    var t := TrimStart(s);
    assert t == [] || t[0] == s[|s| - |t|];
  }

  /** The empty value or a blank one. */
  predicate Blank(v: JsValue)
    requires TextValue(v)
  {
    !Truthy(v) || Trim(v.s) == ""
  }

  const NameEmpty := "Judul buku tidak boleh kosong"
  const AuthorEmpty := "Nama penulis tidak boleh kosong"
  const YearEmpty := "Tahun terbit tidak boleh kosong"
  const YearInvalid := "Tahun terbit tidak valid"
  const PublisherEmpty := "Nama penerbit tidak boleh kosong"
  const PageCountTooSmall := "Jumlah halaman harus lebih dari 0"
  const ReadPageEmpty := "Halaman dibaca tidak boleh kosong"
  const ReadPageNegative := "Halaman dibaca tidak boleh negatif"
  const ReadPageTooLarge := "Halaman dibaca tidak boleh lebih besar dari jumlah halaman"

  predicate IsTextField(field: string)
  {
    field == "name" || field == "author" || field == "publisher"
  }

  /**
   * `validateField(name, value, pageCount)`: an error message, or None for null.
   * The caller passes `pageCount` as Null when it has none to give.
   */
  function ValidateField(field: string, value: JsValue, pageCount: JsValue): (r: Option<string>)
    requires IsTextField(field) ==> TextValue(value)
    requires field == "year" || field == "pageCount" ==> NumericValue(value)
    requires field == "readPage" ==> (NumericValue(value) || value == Str("")) && NumericValue(pageCount)
    ensures !IsTextField(field) && field !in {"year", "pageCount", "readPage"} ==> r == None
    ensures r.Some? ==> r.value in {NameEmpty, AuthorEmpty, YearEmpty, YearInvalid, PublisherEmpty,
                                   PageCountTooSmall, ReadPageEmpty, ReadPageNegative, ReadPageTooLarge}
  {
    if field == "name" then
      if Blank(value) then Some(NameEmpty) else None
    else if field == "author" then
      if Blank(value) then Some(AuthorEmpty) else None
    else if field == "year" then
      if !Truthy(value) then Some(YearEmpty)
      else if value.n < 1000 || value.n > 2100 then Some(YearInvalid)
      else None
    else if field == "publisher" then
      if Blank(value) then Some(PublisherEmpty) else None
    else if field == "pageCount" then
      if !Truthy(value) || value.n < 1 then Some(PageCountTooSmall) else None
    else if field == "readPage" then
      if value.Null? || value.Undefined? || value == Str("") then Some(ReadPageEmpty)
      else if value.Num? && value.n < 0 then Some(ReadPageNegative)
      else if !pageCount.Null? && value.Num? && pageCount.Num? && value.n > pageCount.n then Some(ReadPageTooLarge)
      else None
    else None
  }

  /** Text fields: an error exactly when the value is missing, empty or all white space. */
  lemma TextFieldRule(field: string, value: JsValue, pageCount: JsValue)
    requires IsTextField(field) && TextValue(value)
    ensures ValidateField(field, value, pageCount).Some? <==>
      value.Undefined? || value.Null? || forall i :: 0 <= i < |value.s| ==> IsWhiteSpace(value.s[i])
    ensures ValidateField(field, value, pageCount).Some? ==>
      ValidateField(field, value, pageCount).value ==
        if field == "name" then NameEmpty else if field == "author" then AuthorEmpty else PublisherEmpty
  {
    if value.Str? {
      TrimEmptyIff(value.s);
    }
    var r := ValidateField(field, value, pageCount);
    if field == "name" {
      assert r == if Blank(value) then Some(NameEmpty) else None;
    } else if field == "author" {
      assert r == if Blank(value) then Some(AuthorEmpty) else None;
    } else {
      assert r == if Blank(value) then Some(PublisherEmpty) else None;
    }
  }

  /** Year: falsy (0 included) or outside 1000..2100 is an error; both bounds are valid years. */
  lemma YearRule(value: JsValue, pageCount: JsValue)
    requires NumericValue(value)
    ensures ValidateField("year", value, pageCount).Some? <==> !(value.Num? && 1000 <= value.n <= 2100)
    ensures !Truthy(value) ==> ValidateField("year", value, pageCount) == Some(YearEmpty)
    ensures Truthy(value) && !(1000 <= value.n <= 2100) ==> ValidateField("year", value, pageCount) == Some(YearInvalid)
    ensures ValidateField("year", Num(0), pageCount) == Some(YearEmpty)
    ensures ValidateField("year", Num(1000), pageCount) == None
    ensures ValidateField("year", Num(2100), pageCount) == None
  {
  }

  /** Page count: an error exactly when it is not a number of at least 1. */
  lemma PageCountRule(value: JsValue, pageCount: JsValue)
    requires NumericValue(value)
    ensures ValidateField("pageCount", value, pageCount).Some? <==> !(value.Num? && value.n >= 1)
    ensures ValidateField("pageCount", value, pageCount).Some? ==>
      ValidateField("pageCount", value, pageCount) == Some(PageCountTooSmall)
  {
  }

  /**
   * Read page, checks in order: absent, then negative, then above a given page count.
   * 0 is valid whenever the page count is absent or not negative.
   */
  lemma ReadPageRule(value: JsValue, pageCount: JsValue)
    requires NumericValue(value) || value == Str("")
    requires NumericValue(pageCount)
    ensures var r := ValidateField("readPage", value, pageCount);
      (value.Undefined? || value.Null? || value == Str("") ==> r == Some(ReadPageEmpty)) &&
      (value.Num? && value.n < 0 ==> r == Some(ReadPageNegative)) &&
      (value.Num? && value.n >= 0 && pageCount.Num? && value.n > pageCount.n ==> r == Some(ReadPageTooLarge)) &&
      (value.Num? && value.n >= 0 && !(pageCount.Num? && value.n > pageCount.n) ==> r == None)
    ensures !(pageCount.Num? && pageCount.n < 0) ==> ValidateField("readPage", Num(0), pageCount) == None
  {
  }

  /** `parseInt('')` is NaN, and a NaN read page passes every check. */
  lemma ReadPageNaNAccepted(pageCount: JsValue)
    requires NumericValue(pageCount)
    ensures ValidateField("readPage", NaN, pageCount) == None
  {
  }

  /** `text.substring(0, maxLength)`: a negative end is clamped to 0. */
  function Prefix(text: string, maxLength: int): (r: string)
    requires maxLength < |text|
  {
    if maxLength < 0 then "" else text[..maxLength]
  }

  /** `truncateText(text, maxLength)`. */
  function TruncateText(text: string, maxLength: int): (r: string)
    ensures |text| <= maxLength ==> r == text
    ensures |text| > maxLength ==>
      |r| == (if maxLength < 0 then 0 else maxLength) + 3 &&
      r[..|r| - 3] <= text && r[|r| - 3..] == "..."
    ensures |r| <= (if maxLength < 0 then 0 else maxLength) + 3
  {
    if |text| <= maxLength then text else Prefix(text, maxLength) + "..."
  }

  /** Truncating an already truncated text changes nothing. */
  lemma TruncateIdempotent(text: string, maxLength: int)
    ensures TruncateText(TruncateText(text, maxLength), maxLength) == TruncateText(text, maxLength)
  {
    if |text| > maxLength {
      var r := TruncateText(text, maxLength);
      assert r[..|r| - 3] == Prefix(text, maxLength);
    }
  }
}
