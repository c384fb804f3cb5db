/** `FORMAT_CONVERTER_MAPPINGS`: the fixed table from format selector to the converter classes to run. */
module Dispatch {
  import opened Results
  import opened Naming
  import opened Converters

  /**
   * Each format selector and the converter classes it runs, in the order
   * they run: the selectors are exactly "pdf", "docx" and "all", and each
   * runs at least one concrete class.
   */
  function FormatConverterMappings(): (m: map<string, seq<Variant>>)
    ensures m.Keys == {"pdf", "docx", "all"}
    ensures forall s :: s in m ==> |m[s]| >= 1 && Base !in m[s]
  {
    map["pdf" := [Pdf], "docx" := [Docx], "all" := [Pdf, Docx]]
  }

  /** No class is listed twice under one selector. */
  predicate NoRepeats(vs: seq<Variant>)
  {
    forall i, j :: 0 <= i < j < |vs| ==> vs[i] != vs[j]
  }

  /**
   * Looking a selector up in the table: exactly "pdf", "docx" and "all" are
   * known, an unknown one raises `KeyError`, and each known one runs at
   * least one concrete class, none twice.
   */
  function ConvertersFor(selector: string): (r: Result<seq<Variant>>)
    ensures r.Success? <==> selector == "pdf" || selector == "docx" || selector == "all"
    ensures r.Failure? ==> r.error == UnknownFormat(selector)
    ensures r.Success? ==> |r.value| >= 1 && Base !in r.value && NoRepeats(r.value)
  {
    var table := FormatConverterMappings();
    if selector in table then Success(table[selector])
    else Failure(UnknownFormat(selector))
  }

  /** The order of dispatch: "pdf" runs PDF, "docx" runs DOCX, "all" runs PDF and then DOCX. */
  lemma DispatchOrder()
    ensures ConvertersFor("pdf") == Success([Pdf])
    ensures ConvertersFor("docx") == Success([Docx])
    ensures ConvertersFor("all") == Success([Pdf, Docx])
    ensures ConvertersFor("all").value == ConvertersFor("pdf").value + ConvertersFor("docx").value
  {
  }

  /**
   * Every class a selector runs has an extension, so naming its output never
   * raises the configuration error.
   */
  lemma DispatchedNamesDefined(selector: string, prefix: Option<string>, input: Option<string>, i: nat)
    requires ConvertersFor(selector).Success?
    requires i < |ConvertersFor(selector).value|
    ensures FileName(DefaultExtension(ConvertersFor(selector).value[i]), prefix, input).Success?
  {
    assert ConvertersFor(selector).value[i] in ConvertersFor(selector).value;
  }

  /**
   * The classes one selector runs write different files for the same input
   * and prefix, because their extensions differ.
   */
  lemma DispatchedFileNamesDistinct(selector: string, prefix: Option<string>, input: Option<string>, i: nat, j: nat)
    requires ConvertersFor(selector).Success?
    requires i < j < |ConvertersFor(selector).value|
    ensures FileName(DefaultExtension(ConvertersFor(selector).value[i]), prefix, input)
         != FileName(DefaultExtension(ConvertersFor(selector).value[j]), prefix, input)
  {
    var vs := ConvertersFor(selector).value;
    assert vs[i] in vs && vs[j] in vs;
    ExtensionsDistinct(vs[i], vs[j]);
    FileNamesDifferByExtension(DefaultExtension(vs[i]).value, DefaultExtension(vs[j]).value, prefix, input);
  }

  /** Under "all" the two outputs are one ".pdf" file and one ".docx" file, and they differ. */
  lemma AllWritesPdfAndDocx(prefix: Option<string>, input: Option<string>)
    ensures var vs := ConvertersFor("all").value;
            var pdf := FileName(DefaultExtension(vs[0]), prefix, input);
            var docx := FileName(DefaultExtension(vs[1]), prefix, input);
            |vs| == 2 && pdf.Success? && docx.Success? &&
            HasSuffix(pdf.value, ".pdf") && HasSuffix(docx.value, ".docx") && pdf != docx
  {
    DispatchOrder();
    DispatchedFileNamesDistinct("all", prefix, input, 0, 1);
  }
}
