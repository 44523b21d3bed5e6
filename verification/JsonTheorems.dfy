/** The parser accepts exactly the documents of the grammar nested at most 64 deep. */
module JsonTheorems {
  import opened Bytes
  import opened JsonGrammar
  import opened JsonReading
  import Complete = JsonCompleteness
  import Sound = JsonSoundness

  ghost predicate IsDocument(d: Document, text: bytes) {
    DocumentOk(d) && Depth(d.v) <= MAX_DEPTH && DocumentText(d) == text
  }

  /** Accepted texts are the documents, and what is reported is the flattening of the document. */
  lemma ParserCorrect(text: bytes)
    ensures Read(text).Good? <==> exists d :: IsDocument(d, text)
    ensures forall d :: IsDocument(d, text) ==> Read(text) == Good(|text|, DocumentEvents(d))
  {
    if Read(text).Good? {
      var d := Sound.DocumentSound(text);
      assert IsDocument(d, text);
    }
    forall d | IsDocument(d, text) ensures Read(text) == Good(|text|, DocumentEvents(d)) {
      Complete.DocumentReads(text, d);
    }
  }

  /** A text has one meaning: two documents with the same text flatten alike. */
  lemma OneMeaning(d: Document, e: Document)
    requires IsDocument(d, DocumentText(e)) && IsDocument(e, DocumentText(e))
    ensures DocumentEvents(d) == DocumentEvents(e)
  {
    ParserCorrect(DocumentText(e));
  }

  /** A failed parse points into the text, at a non-empty range unless it points at the end. */
  lemma FaultsPointIntoText(text: bytes)
    ensures !(exists d :: IsDocument(d, text)) ==> Read(text).Bad? && InText(text, Read(text).fault)
  {
    ParserCorrect(text);
  }
}
