/** The human-readable summary of one paper: labelled lines, joined by a
    newline and two spaces, with long author and subject lists cut short. */
module Format {
  import opened Text
  import opened Models

  const LineSeparator := "\n  "
  const ItemSeparator := ", "

  const IdLabel := "Paper ID: "
  const TitleLabel := "Title: "
  const AuthorsLabel := "Authors: "
  const DateLabel := "Date: "
  const PdfLabel := "PDF: "
  const SubjectsLabel := "Subjects: "

  /** Every line of a summary starts with exactly one of these labels. */
  const Labels := [IdLabel, TitleLabel, AuthorsLabel, DateLabel, PdfLabel, SubjectsLabel]

  /** At most how many authors or subjects a summary names. */
  const Shown := 3

  /** The first `Shown` items (fewer if there are fewer) joined by ", ". */
  function Preview(items: seq<string>): string {
    Join(items[..if |items| < Shown then |items| else Shown], ItemSeparator)
  }

  /** The authors part: the preview, then how many more there are. */
  function AuthorsText(names: seq<string>): string {
    Preview(names) + MoreText(names)
  }

  /** The subjects part: the preview, then an ellipsis if any are left out. */
  function SubjectsText(subjects: seq<string>): string {
    Preview(subjects) + (if |subjects| > Shown then "..." else "")
  }

  /** The number of lines that start with `heading`. */
  function CountLabelled(lines: seq<string>, heading: string): nat
    decreases |lines|
  {
    if |lines| == 0 then 0
    else (if IsPrefix(heading, lines[0]) then 1 else 0) + CountLabelled(lines[1..], heading)
  }

  lemma {:induction false} CountLabelledAppend(a: seq<string>, b: seq<string>, heading: string)
    ensures CountLabelled(a + b, heading) == CountLabelled(a, heading) + CountLabelled(b, heading)
    decreases |a|
  {
    if |a| == 0 {
      assert a + b == b;
    } else {
      assert (a + b)[1..] == a[1..] + b;
      CountLabelledAppend(a[1..], b, heading);
    }
  }

  /** A line made from one heading never starts with another heading. */
  lemma LabelsExclusive(own: string, other: string, text: string)
    requires own in Labels && other in Labels
    ensures IsPrefix(other, own + text) <==> own == other
  {
    var line := own + text;
    assert line[..|own|] == own;
    if own != other && |other| <= |line| {
      assert line[0] == own[0] && line[1] == own[1];
      if own[0] != other[0] {
        assert line[..|other|][0] != other[0];
      } else {
        assert line[..|other|][1] != other[1];
      }
    }
  }

  lemma CountOne(own: string, text: string, heading: string)
    requires own in Labels && heading in Labels
    ensures CountLabelled([own + text], heading) == if own == heading then 1 else 0
  {
    LabelsExclusive(own, heading, text);
    assert [own + text][1..] == [];
  }

  /** One optional line: counted under its own heading only, and only when present. */
  lemma CountOptional(present: bool, own: string, text: string, heading: string)
    requires own in Labels && heading in Labels
    ensures CountLabelled(if present then [own + text] else [], heading) == if present && own == heading then 1 else 0
  {
    if present {
      CountOne(own, text, heading);
    }
  }

  function Indicator(b: bool): nat {
    if b then 1 else 0
  }

  /** A line made from a label other than the PDF label is neither PDF line. */
  lemma NotPdfLine(own: string, text: string)
    requires own in Labels && own != PdfLabel
    ensures own + text != PdfLabel + "Available" && own + text != PdfLabel + "Not Available"
  {
    LabelsExclusive(own, PdfLabel, text);
    assert IsPrefix(PdfLabel, PdfLabel + "Available");
    assert IsPrefix(PdfLabel, PdfLabel + "Not Available");
  }

  /** The texts after the labels of the optional lines; a placeholder when
      the field is absent. */
  function FirstOr(field: Option<seq<string>>): string {
    if Present(field) then field.value[0] else ""
  }

  function AuthorsOr(field: Option<seq<string>>): string {
    if Present(field) then AuthorsText(field.value) else ""
  }

  function SubjectsOr(field: Option<seq<string>>): string {
    if Present(field) then SubjectsText(field.value) else ""
  }

  function PdfText(p: Paper): string {
    if HasPdf(p) then "Available" else "Not Available"
  }

  function Optional(present: bool, line: string): seq<string> {
    if present then [line] else []
  }

  /** The lines of a summary, in order; a list field that is missing or
      empty contributes no line, and the PDF line is always there. */
  function FormatLines(p: Paper): (lines: seq<string>)
    ensures 2 <= |lines| <= 6
    ensures lines[0] == IdLabel + p.id
    ensures PdfLabel + PdfText(p) in lines
  {
    [IdLabel + p.id]
    + Optional(Present(p.title), TitleLabel + FirstOr(p.title))
    + Optional(Present(p.creatorName), AuthorsLabel + AuthorsOr(p.creatorName))
    + Optional(Present(p.date), DateLabel + FirstOr(p.date))
    + [PdfLabel + PdfText(p)]
    + Optional(Present(p.subject), SubjectsLabel + SubjectsOr(p.subject))
  }

  /** How many of the summary's lines carry a given label. */
  lemma {:induction false} CountInLines(p: Paper, heading: string)
    requires heading in Labels
    ensures CountLabelled(FormatLines(p), heading) ==
      Indicator(heading == IdLabel)
      + Indicator(Present(p.title) && heading == TitleLabel)
      + Indicator(Present(p.creatorName) && heading == AuthorsLabel)
      + Indicator(Present(p.date) && heading == DateLabel)
      + Indicator(heading == PdfLabel)
      + Indicator(Present(p.subject) && heading == SubjectsLabel)
  {
    var idl := [IdLabel + p.id];
    var tl := Optional(Present(p.title), TitleLabel + FirstOr(p.title));
    var al := Optional(Present(p.creatorName), AuthorsLabel + AuthorsOr(p.creatorName));
    var dl := Optional(Present(p.date), DateLabel + FirstOr(p.date));
    var pl := [PdfLabel + PdfText(p)];
    var sl := Optional(Present(p.subject), SubjectsLabel + SubjectsOr(p.subject));
    CountLabelledAppend(idl + tl + al + dl + pl, sl, heading);
    CountLabelledAppend(idl + tl + al + dl, pl, heading);
    CountLabelledAppend(idl + tl + al, dl, heading);
    CountLabelledAppend(idl + tl, al, heading);
    CountLabelledAppend(idl, tl, heading);
    CountOne(IdLabel, p.id, heading);
    CountOptional(Present(p.title), TitleLabel, FirstOr(p.title), heading);
    CountOptional(Present(p.creatorName), AuthorsLabel, AuthorsOr(p.creatorName), heading);
    CountOptional(Present(p.date), DateLabel, FirstOr(p.date), heading);
    CountOne(PdfLabel, PdfText(p), heading);
    CountOptional(Present(p.subject), SubjectsLabel, SubjectsOr(p.subject), heading);
  }

  /** The summary's labelled lines: a title, authors, date or subjects line
      appears exactly once when that field is non-empty and not at all
      otherwise; the id line and the PDF line appear exactly once each, the
      id line first, and there are no other lines. */
  lemma FormatLinesLabels(p: Paper)
    ensures FormatLines(p)[0] == IdLabel + p.id
    ensures |FormatLines(p)| == 2 + Indicator(Present(p.title)) + Indicator(Present(p.creatorName))
      + Indicator(Present(p.date)) + Indicator(Present(p.subject))
    ensures CountLabelled(FormatLines(p), IdLabel) == 1
    ensures CountLabelled(FormatLines(p), TitleLabel) == Indicator(Present(p.title))
    ensures CountLabelled(FormatLines(p), AuthorsLabel) == Indicator(Present(p.creatorName))
    ensures CountLabelled(FormatLines(p), DateLabel) == Indicator(Present(p.date))
    ensures CountLabelled(FormatLines(p), PdfLabel) == 1
    ensures CountLabelled(FormatLines(p), SubjectsLabel) == Indicator(Present(p.subject))
  {
    CountInLines(p, IdLabel);
    CountInLines(p, TitleLabel);
    CountInLines(p, AuthorsLabel);
    CountInLines(p, DateLabel);
    CountInLines(p, PdfLabel);
    CountInLines(p, SubjectsLabel);
  }

  /** The PDF line says "Available" exactly when the paper has a non-empty
      first locator, and "Not Available" exactly when it does not. */
  lemma FormatLinesPdf(p: Paper)
    ensures (PdfLabel + "Available" in FormatLines(p)) <==> HasPdf(p)
    ensures (PdfLabel + "Not Available" in FormatLines(p)) <==> !HasPdf(p)
  {
    NotPdfLine(IdLabel, p.id);
    NotPdfLine(TitleLabel, FirstOr(p.title));
    NotPdfLine(AuthorsLabel, AuthorsOr(p.creatorName));
    NotPdfLine(DateLabel, FirstOr(p.date));
    NotPdfLine(SubjectsLabel, SubjectsOr(p.subject));
    assert PdfLabel + "Available" != PdfLabel + "Not Available" by {
      assert |PdfLabel + "Available"| != |PdfLabel + "Not Available"|;
    }
  }

  /** Python's `'\n  '.join(lines)`: the summary text. It starts with the
      id line and contains the PDF line that fits the paper. */
  function FormatPaperInfo(p: Paper): (r: string)
    ensures IsPrefix(IdLabel + p.id, r)
    ensures Contains(r, PdfLabel + PdfText(p))
  {
    var lines := FormatLines(p);
    JoinStartsWithFirst(lines, LineSeparator);
    var k := 1 + Indicator(Present(p.title)) + Indicator(Present(p.creatorName)) + Indicator(Present(p.date));
    assert lines[k] == PdfLabel + PdfText(p);
    JoinContainsEach(lines, LineSeparator, k);
    Join(lines, LineSeparator)
  }

  /** Each of the first (at most three) items appears in the preview. */
  lemma PreviewContains(items: seq<string>, i: int)
    requires 0 <= i < |items| && i < Shown
    ensures Contains(Preview(items), items[i])
  {
    var shown := items[..if |items| < Shown then |items| else Shown];
    assert shown[i] == items[i];
    JoinContainsEach(shown, ItemSeparator, i);
  }

  /** The count shown after the first three authors. */
  function MoreText(names: seq<string>): string {
    if |names| > Shown then " (and " + Decimal(|names| - Shown) + " more)" else ""
  }

  /** Up to three authors are listed in full, with nothing after them. */
  lemma AuthorsShort(names: seq<string>)
    requires |names| <= Shown
    ensures AuthorsText(names) == Join(names, ItemSeparator)
  {
    assert names[..|names|] == names;
    assert MoreText(names) == [];
  }

  /** Beyond three authors, the first three are followed by " (and k more)",
      where k reads back as the number of authors left out. */
  lemma AuthorsLong(names: seq<string>)
    requires |names| > Shown
    ensures AuthorsText(names) == Join(names[..Shown], ItemSeparator) + (" (and " + Decimal(|names| - Shown) + " more)")
    ensures ParseDecimal(Decimal(|names| - Shown)) + Shown == |names|
  {
    DecimalRoundTrip(|names| - Shown);
  }

  /** Each of the first three authors appears in the authors text. */
  lemma AuthorsNamed(names: seq<string>, i: int)
    requires 0 <= i < |names| && i < Shown
    ensures Contains(AuthorsText(names), names[i])
  {
    PreviewContains(names, i);
    ContainsBeforeSuffix(Preview(names), MoreText(names), names[i]);
  }

  /** Subjects: up to three are listed in full; beyond three, the first three
      are followed by "...". Each of the first three appears in the text. */
  lemma SubjectsTruncation(subjects: seq<string>)
    ensures |subjects| <= Shown ==> SubjectsText(subjects) == Join(subjects, ItemSeparator)
    ensures |subjects| > Shown ==> SubjectsText(subjects) == Join(subjects[..Shown], ItemSeparator) + "..."
    ensures forall i :: 0 <= i < |subjects| && i < Shown ==> Contains(SubjectsText(subjects), subjects[i])
  {
    if |subjects| <= Shown {
      assert subjects[..|subjects|] == subjects;
    }
    var more := if |subjects| > Shown then "..." else "";
    assert SubjectsText(subjects) == Preview(subjects) + more;
    forall i | 0 <= i < |subjects| && i < Shown
      ensures Contains(SubjectsText(subjects), subjects[i])
    {
      PreviewContains(subjects, i);
      ContainsBeforeSuffix(Preview(subjects), more, subjects[i]);
    }
  }
}
