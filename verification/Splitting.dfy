/** `text.split(separator)`, shared by the category text, module names and
    reference paths. */
module Splitting {

  /** Always at least one piece, possibly empty ones. */
  function Split(text: string, sep: char): (parts: seq<string>)
    ensures |parts| >= 1
    ensures sep in text <==> |parts| >= 2
  {
    if text == "" then [""]
    else
      var rest := Split(text[1..], sep);
      assert text == [text[0]] + text[1..];
      if text[0] == sep then [""] + rest else [[text[0]] + rest[0]] + rest[1..]
  }

  lemma {:induction false} SplitAtSeparator(head: string, tail: string, sep: char)
    requires sep !in head
    ensures Split(head + [sep] + tail, sep) == [head] + Split(tail, sep)
  {
    var text := head + [sep] + tail;
    if head == "" {
      assert text[1..] == tail;
    } else {
      assert text[1..] == head[1..] + [sep] + tail;
      SplitAtSeparator(head[1..], tail, sep);
      assert [head[0]] + head[1..] == head;
    }
  }

  lemma {:induction false} SplitWithoutSeparator(text: string, sep: char)
    requires sep !in text
    ensures Split(text, sep) == [text]
  {
    if text != "" {
      SplitWithoutSeparator(text[1..], sep);
      assert [text[0]] + text[1..] == text;
    }
  }

  /** The first piece is what stands before the first separator. */
  lemma {:induction false} FirstPiece(text: string, sep: char)
    requires sep in text
    ensures var head := Split(text, sep)[0];
      sep !in head && |head| < |text| && text == head + [sep] + text[|head| + 1..]
      && Split(text, sep)[1..] == Split(text[|head| + 1..], sep)
  {
    assert text == [text[0]] + text[1..];
    if text[0] != sep {
      FirstPiece(text[1..], sep);
    }
  }
}
