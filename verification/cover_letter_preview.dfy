/** The cover-letter preview and its PDF export: which blocks of text appear, in
    what order, at what size and weight; and where the on-screen preview differs
    from the exported file. Page layout (the vertical cursor, line wrapping) is
    not modelled. */
module CoverLetterPreview {

  import opened Seqs
  import opened Text
  import opened CoverLetterStore

  /** One `addText(text, fontSize, bold)` call. */
  datatype Block = Block(text: string, fontSize: nat, bold: bool)

  const BodySize: nat := 11
  const TitleSize: nat := 16
  const Closing := "Sincerely,"

  function ContactLine(d: CoverLetterData): string {
    d.email + " | " + d.phone
  }

  function SubjectLine(jobTitle: string): string {
    "Re: Application for " + jobTitle + " Position"
  }

  /** The letter paragraphs as written, one `if (field) addText(field)` per field:
      introduction, first body paragraph, second body paragraph, conclusion. */
  function Paragraphs(d: CoverLetterData): (r: seq<string>)
    ensures |r| <= 4
    ensures forall i :: 0 <= i < |r| ==> Truthy(r[i])
  {
    Kept(d.introduction) + Kept(d.bodyParagraph1) + Kept(d.bodyParagraph2) + Kept(d.conclusion)
  }

  /** The paragraphs are the four fields filtered for non-empty ones, in letter order
      and with repeats kept; so a paragraph appears exactly when it is one of the
      four fields and non-empty. */
  lemma ParagraphsAreTheFilledFields(d: CoverLetterData)
    ensures Paragraphs(d) == Truthful([d.introduction, d.bodyParagraph1, d.bodyParagraph2, d.conclusion])
    ensures forall p :: p in Paragraphs(d) <==>
      Truthy(p) && p in [d.introduction, d.bodyParagraph1, d.bodyParagraph2, d.conclusion]
  {
    TruthfulOfFour(d.introduction, d.bodyParagraph1, d.bodyParagraph2, d.conclusion);
  }

  function Plain(text: string): Block {
    Block(text, BodySize, false)
  }

  function PlainAll(texts: seq<string>): (r: seq<Block>)
    ensures |r| == |texts| && forall i :: 0 <= i < |texts| ==> r[i] == Plain(texts[i])
  {
    seq(|texts|, i requires 0 <= i < |texts| => Plain(texts[i]))
  }

  /** `downloadPDF`'s sequence of `addText` calls. */
  function PdfBlocks(d: CoverLetterData): seq<Block> {
    [Block(d.fullName, TitleSize, true), Plain(ContactLine(d)), Plain(d.address), Plain(d.date)]
    + (if Truthy(d.hiringManagerName) then [Plain(d.hiringManagerName)] else [])
    + [Plain(d.companyName), Block(SubjectLine(d.jobTitle), BodySize, true)]
    + PlainAll(Paragraphs(d))
    + [Plain(Closing), Block(d.fullName, BodySize, true)]
  }

  /** The file name the export saves under. */
  function PdfFileName(d: CoverLetterData): (r: string)
    ensures |r| == |d.fullName| + 17 && r[..|d.fullName|] == d.fullName
    ensures r[|d.fullName|..] == "_Cover_Letter.pdf"
  {
    d.fullName + "_Cover_Letter.pdf"
  }

  /** The export's shape: the name in large bold first, the closing and the name in
      bold last; eight blocks always, one more for a named hiring manager and one
      for each non-empty paragraph, which appear in letter order. */
  lemma PdfBlocksShape(d: CoverLetterData)
    ensures var bs := PdfBlocks(d);
      && |bs| == 8 + (if Truthy(d.hiringManagerName) then 1 else 0) + |Paragraphs(d)|
      && bs[0] == Block(d.fullName, TitleSize, true)
      && bs[|bs| - 2] == Plain(Closing)
      && bs[|bs| - 1] == Block(d.fullName, BodySize, true)
      && var k := 6 + (if Truthy(d.hiringManagerName) then 1 else 0);
         bs[k - 1] == Block(SubjectLine(d.jobTitle), BodySize, true)
         && forall i :: 0 <= i < |Paragraphs(d)| ==> bs[k + i] == Plain(Paragraphs(d)[i])
  {
  }

  /** Only the name and the subject line are bold. */
  lemma BoldBlocks(d: CoverLetterData)
    ensures forall b :: b in PdfBlocks(d) && b.bold ==> b.text == d.fullName || b.text == SubjectLine(d.jobTitle)
  {
  }

  /** The exported letter for a fresh store: eight blocks, with empty name, address
      and company lines, the date captured when the store was loaded, and no
      paragraphs; the file is saved as "_Cover_Letter.pdf". */
  lemma BlankLetterExport(loadDate: string)
    ensures var d := InitialCoverLetterData(loadDate);
      && |PdfBlocks(d)| == 8
      && PdfBlocks(d)[3] == Plain(loadDate)
      && PdfFileName(d) == "_Cover_Letter.pdf"
  {
    var d := InitialCoverLetterData(loadDate);
  }

  // ---------------------------------------------------------------------------
  // The on-screen preview

  const NamePlaceholder := "Your Name"
  const CompanyPlaceholder := "Company Name"
  const TitlePlaceholder := "Position Title"

  function Or(s: string, fallback: string): (r: string)
    ensures Truthy(s) ==> r == s
    ensures !Truthy(s) ==> r == fallback
  {
    if Truthy(s) then s else fallback
  }

  /** The preview's lines of text, top to bottom. */
  function PreviewTexts(d: CoverLetterData): seq<string> {
    [Or(d.fullName, NamePlaceholder), ContactLine(d), d.address, d.date]
    + (if Truthy(d.hiringManagerName) then [d.hiringManagerName] else [])
    + [Or(d.companyName, CompanyPlaceholder), SubjectLine(Or(d.jobTitle, TitlePlaceholder))]
    + Paragraphs(d)
    + [Closing, Or(d.fullName, NamePlaceholder)]
  }

  function Texts(bs: seq<Block>): (r: seq<string>)
    ensures |r| == |bs| && forall i :: 0 <= i < |bs| ==> r[i] == bs[i].text
  {
    seq(|bs|, i requires 0 <= i < |bs| => bs[i].text)
  }

  /** The preview shows what the export writes, line for line, exactly when the
      name, the company and the job title are filled in; otherwise the preview
      shows a placeholder where the export writes an empty field. */
  lemma PreviewMatchesExport(d: CoverLetterData)
    ensures PreviewTexts(d) == Texts(PdfBlocks(d)) <==>
      Truthy(d.fullName) && Truthy(d.companyName) && Truthy(d.jobTitle)
  {
    var h := if Truthy(d.hiringManagerName) then 1 else 0;
    var pv := PreviewTexts(d);
    var ex := Texts(PdfBlocks(d));
    assert |pv| == |ex|;
    assert ex[0] == d.fullName && pv[0] == Or(d.fullName, NamePlaceholder);
    assert ex[4 + h] == d.companyName && pv[4 + h] == Or(d.companyName, CompanyPlaceholder);
    assert ex[5 + h] == SubjectLine(d.jobTitle) && pv[5 + h] == SubjectLine(Or(d.jobTitle, TitlePlaceholder));
    if Truthy(d.fullName) && Truthy(d.companyName) && Truthy(d.jobTitle) {
      forall i | 0 <= i < |pv| ensures pv[i] == ex[i] {
      }
    } else if !Truthy(d.jobTitle) {
      assert |SubjectLine(d.jobTitle)| != |SubjectLine(TitlePlaceholder)|;
    }
  }
}
