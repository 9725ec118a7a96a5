/** `generateMarkdownDocument`: a Markdown page holding the table in a fenced code
    block under a title and a generation time stamp. The clock is a parameter. */
module Markdown {
  import opened JsonValues
  import opened WordWrap
  import opened Render
  import opened Table

  const DefaultTitle: string := "Dynamic Data Table"

  /** `options.title || "Dynamic Data Table"`; a missing title is given as "". */
  function TitleOf(title: string): (r: string)
    ensures title != "" ==> r == title
    ensures title == "" ==> r == DefaultTitle
    ensures r != ""
  {
    if title != "" then title else DefaultTitle
  }

  /** Everything before the table. */
  function Heading(title: string, timestamp: string): string
  {
    "# " + TitleOf(title) + "\n\n" + "*Generated on: " + timestamp + "*\n\n" + "```\n"
  }

  /** Where the time stamp starts. */
  function StampAt(title: string): nat
  {
    |"# " + TitleOf(title) + "\n\n" + "*Generated on: "|
  }

  function Document(title: string, timestamp: string, table: string): string
  {
    Heading(title, timestamp) + table + "\n```\n"
  }

  /** `generateMarkdownDocument(data, { title })` at the time `timestamp`. */
  method GenerateMarkdownDocument(data: seq<Json>, title: string, timestamp: string, stringify: Json -> string)
    returns (markdown: string)
    ensures markdown == Document(title, timestamp, AsciiTable(data, stringify, Untrimmed, ColumnsOnly))
  {
    var t := if title != "" then title else "Dynamic Data Table";
    markdown := "# " + t + "\n\n";
    markdown := markdown + "*Generated on: " + timestamp + "*\n\n";
    markdown := markdown + "```\n";
    var table := GenerateAsciiTableWrapped(data, stringify);
    markdown := markdown + table;
    markdown := markdown + "\n```\n";
  }

  /** The table can be read back from the document: it is everything between the
      heading and the closing fence, and the document opens with the title. */
  lemma TableInDocument(title: string, timestamp: string, table: string)
    ensures var doc := Document(title, timestamp, table);
            var h := |Heading(title, timestamp)|;
            h + |table| + 5 == |doc| &&
            doc[h..h + |table|] == table &&
            doc[h + |table|..] == "\n```\n" &&
            doc[..2 + |TitleOf(title)| + 1] == "# " + TitleOf(title) + "\n"
  {
    var doc := Document(title, timestamp, table);
    var t := TitleOf(title);
    assert doc == ("# " + t + "\n") + ("\n" + "*Generated on: " + timestamp + "*\n\n" + "```\n" + table + "\n```\n");
  }

  /** Two documents of the same table and title made at different times differ only
      in the time stamp. */
  lemma OnlyTheStampDiffers(title: string, ts1: string, ts2: string, table: string)
    ensures var p := StampAt(title);
            var d1 := Document(title, ts1, table);
            var d2 := Document(title, ts2, table);
            p + |ts1| <= |d1| && p + |ts2| <= |d2| &&
            d1[..p] == d2[..p] && d1[p..p + |ts1|] == ts1 && d2[p..p + |ts2|] == ts2 &&
            d1[p + |ts1|..] == d2[p + |ts2|..]
  {
    var pre := "# " + TitleOf(title) + "\n\n" + "*Generated on: ";
    var post := "*\n\n" + "```\n" + table + "\n```\n";
    assert Document(title, ts1, table) == pre + ts1 + post;
    assert Document(title, ts2, table) == pre + ts2 + post;
  }
}
