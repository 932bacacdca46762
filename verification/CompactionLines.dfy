/** What the line tests of the compaction script stand for. */
module CompactionLines {
  import opened Compaction

  /** A fence starts with three back quotes, a row with a bar, and a blank line holds
      white space only. */
  lemma LineKindsExactly(line: Line)
    ensures IsFence(line) <==> "```" <= line
    ensures IsRow(line) <==> "|" <= line
    ensures IsBlank(line) <==> forall k :: 0 <= k < |line| ==> line[k] as int in WHITE_SPACE
  {
    forall k | 0 <= k < |line| ensures IsSpace(line[k]) <==> line[k] as int in WHITE_SPACE {
      SpacesAreListed(line[k]);
    }
    if forall k :: 0 <= k < |line| ==> line[k] as int in WHITE_SPACE {
      forall c | c in line ensures IsSpace(c) {
        var k :| 0 <= k < |line| && line[k] == c;
      }
    }
  }

  /** The code points that Python counts as white space. */
  const WHITE_SPACE: set<int> := {
    9, 10, 11, 12, 13, 28, 29, 30, 31, 32, 133, 160, 5760, 8192, 8193, 8194, 8195, 8196, 8197, 8198, 8199, 8200, 8201,
    8202, 8232, 8233, 8239, 8287, 12288
  }

  lemma SpacesAreListed(c: char)
    ensures IsSpace(c) <==> c as int in WHITE_SPACE
  {
  }
}
