/** `ImageRecord` and its extraction from a loaded JSON document
    (decoder.py, `ImageRecord.from_json_payload`). */
module Record {
  import opened PyJson

  const DefaultJobId := "unknown_job"
  const DefaultFilename := "image"
  const DefaultMime := "application/octet-stream"

  /** The dataclass. Python does not check the annotated `str` types, so
      each field holds whatever JSON value the document had there. */
  datatype ImageRecord = ImageRecord(jobId: Json, filename: Json, mime: Json, base64Data: Json)

  /** What `from_json_payload` does: build a record, raise KeyError naming
      the missing key, or raise TypeError/AttributeError because a value
      that is not a dict was indexed or asked for `.get`. */
  datatype Extraction =
    | Extracted(record: ImageRecord)
    | KeyError(key: string)
    | NotADict

  /** The document shape the record needs: an object whose
      "annotated_image" is an object holding "base64". */
  predicate HasRecordShape(payload: Json) {
    && payload.JObj?
    && "annotated_image" in payload.fields
    && payload.fields["annotated_image"].JObj?
    && "base64" in payload.fields["annotated_image"].fields
  }

  function FromJsonPayload(payload: Json): (r: Extraction)
    ensures r.Extracted? <==> HasRecordShape(payload)
    ensures r.KeyError? <==>
      payload.JObj? &&
      ("annotated_image" !in payload.fields ||
       (payload.fields["annotated_image"].JObj? && "base64" !in payload.fields["annotated_image"].fields))
    ensures r.KeyError? ==>
      r.key == (if "annotated_image" !in payload.fields then "annotated_image" else "base64")
    ensures r.Extracted? ==> r.record.base64Data == payload.fields["annotated_image"].fields["base64"]
  {
    match payload
    case JObj(top) =>
      if "annotated_image" !in top then KeyError("annotated_image")
      else
        (match top["annotated_image"]
         case JObj(annotated) =>
           if "base64" !in annotated then KeyError("base64")
           else
             Extracted(ImageRecord(
               Get(top, "job_id", JStr(DefaultJobId)),
               Get(annotated, "filename", JStr(DefaultFilename)),
               Get(annotated, "mime", JStr(DefaultMime)),
               annotated["base64"]))
         case _ => NotADict)
    case _ => NotADict
  }

  /** Optional fields: an absent key takes its default, a present key is
      copied as it is (a JSON null included). */
  lemma ExtractionFields(payload: Json)
    requires HasRecordShape(payload)
    ensures
      var top, annotated := payload.fields, payload.fields["annotated_image"].fields;
      var rec := FromJsonPayload(payload).record;
      && rec.jobId == (if "job_id" in top then top["job_id"] else JStr("unknown_job"))
      && rec.filename == (if "filename" in annotated then annotated["filename"] else JStr("image"))
      && rec.mime == (if "mime" in annotated then annotated["mime"] else JStr("application/octet-stream"))
      && rec.base64Data == annotated["base64"]
  {
  }
}
