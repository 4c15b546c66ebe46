/**
 * The two checks of the REST serializers that carry logic: the validation of a file sent for
 * OCR processing, and the `extracted_fields` a document is serialised with.
 */
module Serializers {
  import opened Options
  import opened Strs
  import opened JsonValues
  import Utils

  // ---------------------------------------------------------------- file validation

  /** The part of an uploaded file the check looks at. */
  datatype UploadedFile = UploadedFile(name: string, size: nat)

  /** 10 MiB */
  const MaxUploadSize: nat := 10 * 1024 * 1024

  const AllowedExtensions: seq<string> := [".jpg", ".jpeg", ".png", ".pdf", ".tiff", ".bmp"]

  const TooLargeMessage: string := "File size must be less than 10MB"

  function TypeMessage(ext: string): string {
    "File type " + ext + " not allowed. Allowed types: " + Join(AllowedExtensions, ", ")
  }

  /** A validated value, or the message of the validation error raised. */
  datatype Validated<T> = Valid(value: T) | Invalid(message: string)

  /** `validate_file`: the size is checked first, then the lower-cased extension; an accepted
      file is handed back as it came. */
  function ValidateFile(f: UploadedFile): (r: Validated<UploadedFile>)
    ensures r.Valid? <==> f.size <= MaxUploadSize && Lower(Ext(f.name)) in AllowedExtensions
    ensures r.Valid? ==> r.value == f
    ensures f.size > MaxUploadSize ==> r == Invalid(TooLargeMessage)
    ensures f.size <= MaxUploadSize && Lower(Ext(f.name)) !in AllowedExtensions ==>
      r == Invalid(TypeMessage(Lower(Ext(f.name))))
  {
    var ext := Lower(Ext(f.name));
    if f.size > MaxUploadSize then Invalid(TooLargeMessage)
    else if ext !in AllowedExtensions then Invalid(TypeMessage(ext))
    else Valid(f)
  }

  /** Every file this check accepts also passes the size and format checks of the upload
      helper, whose limit is 50 MiB and whose formats include every extension allowed here. */
  lemma AcceptedPassesUploadChecks(f: UploadedFile, mime: Option<string>)
    requires ValidateFile(f).Valid?
    ensures !Utils.ValidateUploadedFile(f.size, f.name, mime).TooLarge?
    ensures !Utils.ValidateUploadedFile(f.size, f.name, mime).UnsupportedFormat?
  {
    var ext := Lower(Ext(f.name));
    assert ext in Utils.SupportedFormats by {
      var i :| 0 <= i < |AllowedExtensions| && AllowedExtensions[i] == ext;
      assert AllowedExtensions[i] in Utils.SupportedFormats;
    }
  }

  /** The two checks disagree on GIF images: the upload helper supports the format, this check
      rejects it. */
  lemma GifRejectedHere(f: UploadedFile)
    requires f.size <= MaxUploadSize && Lower(Ext(f.name)) == ".gif"
    ensures ValidateFile(f) == Invalid(TypeMessage(".gif"))
    ensures !Utils.ValidateUploadedFile(f.size, f.name, Some("image/gif")).UnsupportedFormat?
  {
    assert ".gif" == Utils.SupportedImageFormats[5];
  }

  // ---------------------------------------------------------------- extracted fields

  /** Python truthiness of a decoded JSON value. */
  predicate Truthy(j: Json) {
    match j
    case JNull => false
    case JBool(b) => b
    case JInt(i) => i != 0
    case JReal(r) => r != 0.0
    case JStr(s) => s != ""
    case JArr(items) => items != []
    case JObj(members) => members != []
  }

  predicate HasFields(j: Json) {
    j.JObj? && Get(j.members, "fields").Some?
  }

  /** `get_extracted_fields` on the stored `extracted_data`; JNull stands for Python's None.
      A stored string is decoded with `parse`, which yields None where `json.loads` raises. */
  function ExtractedFields(stored: Json, parse: string -> Option<Json>): (r: Json)
    ensures !Truthy(stored) ==> r == JNull
    ensures Truthy(stored) && stored.JStr? && parse(stored.s).None? ==> r == JNull
    ensures Truthy(stored) && stored.JStr? && parse(stored.s).Some? ==>
      var d := parse(stored.s).value;
      r == (if HasFields(d) then Get(d.members, "fields").value else d)
    ensures Truthy(stored) && !stored.JStr? && HasFields(stored) ==> r == Get(stored.members, "fields").value
    ensures Truthy(stored) && !stored.JStr? && !HasFields(stored) ==> r == stored
  {
    if !Truthy(stored) then JNull
    else
      var data := if stored.JStr? then parse(stored.s) else Some(stored);
      if data.None? then JNull
      else if HasFields(data.value) then Get(data.value.members, "fields").value
      else data.value
  }

  /** A document whose data was stored as JSON text reads the same as one whose data was stored
      decoded, whenever the decoded value is not falsy. */
  lemma TextAndDecodedAgree(s: string, j: Json, parse: string -> Option<Json>)
    requires s != "" && parse(s) == Some(j) && Truthy(j) && !j.JStr?
    ensures ExtractedFields(JStr(s), parse) == ExtractedFields(j, parse)
  {
  }

  /** Text that decodes to a falsy value (`"{}"`, `"[]"`, `"0"`) or to a string is returned
      decoded, although the same value stored decoded reads as None: only the stored text is
      tested for truthiness. */
  lemma DecodedFalsyStillReturned(s: string, j: Json, parse: string -> Option<Json>)
    requires s != "" && parse(s) == Some(j) && (!Truthy(j) || j.JStr?)
    ensures ExtractedFields(JStr(s), parse) == j
    ensures !Truthy(j) ==> ExtractedFields(j, parse) == JNull
  {
  }

  /** A data dictionary whose first key is `fields` serialises as that entry, whatever else it
      holds; one with no `fields` key serialises as itself. */
  lemma FieldsEntryWins(v: Json, rest: seq<(string, Json)>, parse: string -> Option<Json>)
    ensures ExtractedFields(JObj([("fields", v)] + rest), parse) == v
    ensures (forall i :: 0 <= i < |rest| ==> rest[i].0 != "fields") && rest != [] ==>
      ExtractedFields(JObj(rest), parse) == JObj(rest)
  {
    assert ([("fields", v)] + rest)[0] == ("fields", v);
  }
}
