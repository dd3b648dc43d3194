/** Cleaning the model's final reply before `JSON.parse`: every "```json" is deleted, then
    every remaining "```", then whitespace is trimmed from both ends. */
module FenceCleaner {
  import opened Strings

  /** The opening fence of a JSON code block. */
  const FENCE_JSON: string := "```json"

  /** A bare code fence. */
  const FENCE: string := "```"

  /** `text.replace(/```json/g, "").replace(/```/g, "").trim()`. */
  function Clean(text: string): string
  {
    Trim(RemoveAll(RemoveAll(text, FENCE_JSON), FENCE))
  }

  /** When the text does not start with the pattern, its first character is kept and the scan
      goes on from the second. */
  lemma RemoveAllHead(s: string, pat: string)
    requires pat != [] && s != [] && !StartsWith(s, pat)
    ensures RemoveAll(s, pat) == [s[0]] + RemoveAll(s[1..], pat)
  {
    if |s| < |pat| {
      assert [s[0]] + s[1..] == s;
    }
  }

  /** After a backtick that does not open a fence, what the scan leaves of the rest does not
      begin with two backticks: together they would have been a fence. */
  lemma NoDoubleTickAfterTick(s: string)
    requires s != [] && s[0] == '`' && !StartsWith(s, FENCE)
    ensures var r := RemoveAll(s[1..], FENCE); !(|r| >= 2 && r[0] == '`' && r[1] == '`')
  {
    var t := s[1..];
    if t != [] {
      if t[0] != '`' {
        RemoveAllHead(t, FENCE);
      } else if |t| == 1 {
        assert RemoveAll(t, FENCE) == t;
      } else {
        assert s[..3] == [s[0], s[1], s[2]];
        assert t[1] != '`';
        RemoveAllHead(t, FENCE);
        RemoveAllHead(t[1..], FENCE);
      }
    }
  }

  /** The global replace of "```" leaves no "```" behind: the scan never glues a fence together
      out of the pieces around one it deleted. */
  lemma {:induction false} FenceRemovalLeavesNoFence(s: string)
    ensures !Contains(RemoveAll(s, FENCE), FENCE)
    decreases |s|
  {
    var r := RemoveAll(s, FENCE);
    if |s| < |FENCE| {
      if Contains(r, FENCE) {
        ContainsNeedsRoom(r, FENCE);
      }
    } else if StartsWith(s, FENCE) {
      FenceRemovalLeavesNoFence(s[|FENCE|..]);
    } else {
      RemoveAllHead(s, FENCE);
      var rest := RemoveAll(s[1..], FENCE);
      FenceRemovalLeavesNoFence(s[1..]);
      if s[0] == '`' {
        NoDoubleTickAfterTick(s);
        if |r| >= 3 {
          assert r[1] == rest[0] && r[2] == rest[1];
        }
      }
      assert !StartsWith(r, FENCE) by {
        if |r| >= 3 {
          assert r[..3][0] == r[0] && r[..3][1] == r[1] && r[..3][2] == r[2];
        }
      }
      assert r[1..] == rest;
    }
  }

  /** A cleaned reply holds no code fence. */
  lemma CleanHasNoFence(text: string)
    ensures !Contains(Clean(text), FENCE)
  {
    var removed := RemoveAll(RemoveAll(text, FENCE_JSON), FENCE);
    FenceRemovalLeavesNoFence(RemoveAll(text, FENCE_JSON));
    if Contains(Clean(text), FENCE) {
      TrimIsSubstring(removed);
      ContainsTransitive(removed, Clean(text), FENCE);
    }
  }

  /** A cleaned reply has no whitespace at either end. */
  lemma CleanIsTrimmed(text: string)
    ensures IsTrimmed(Clean(text))
  {
    TrimProperties(RemoveAll(RemoveAll(text, FENCE_JSON), FENCE));
  }

  /** Cleaning a cleaned reply changes nothing. */
  lemma CleanIdempotent(text: string)
    ensures Clean(Clean(text)) == Clean(text)
  {
    var c := Clean(text);
    CleanHasNoFence(text);
    CleanIsTrimmed(text);
    if Contains(c, FENCE_JSON) {
      assert OccursAt(FENCE_JSON, FENCE, 0);
      OccurrenceIsFound(FENCE_JSON, FENCE, 0);
      ContainsTransitive(c, FENCE_JSON, FENCE);
    }
    RemoveAllAbsent(c, FENCE_JSON);
    RemoveAllAbsent(c, FENCE);
    TrimProperties(c);
  }

  /** A reply without backticks, such as plain JSON, is only trimmed. */
  lemma CleanPlainText(text: string)
    requires '`' !in text
    ensures Clean(text) == Trim(text)
  {
    MissingCharExcludes(text, FENCE_JSON, 0);
    RemoveAllAbsent(text, FENCE_JSON);
    MissingCharExcludes(text, FENCE, 0);
    RemoveAllAbsent(text, FENCE);
  }

  /** A line break on each side of a trimmed body is stripped by `trim`. */
  lemma TrimNewlines(body: string)
    requires IsTrimmed(body)
    ensures Trim("\n" + body + "\n") == body
  {
    var s := "\n" + body + "\n";
    assert s[1..] == body + "\n";
    if body == [] {
      assert TrimStart(s) == TrimStart("\n") == TrimStart("");
    } else {
      assert TrimStart(s) == TrimStart(body + "\n") == body + "\n";
      var u := body + "\n";
      assert u[..|u| - 1] == body;
      assert TrimEnd(u) == TrimEnd(body) == body;
    }
  }

  /** A JSON body without backticks, wrapped in a "```json" block on lines of its own, comes
      out as the bare body. */
  lemma CleanUnwrapsFencedBlock(body: string)
    requires '`' !in body && IsTrimmed(body)
    ensures Clean("```json\n" + body + "\n```") == body
  {
    var inner := "\n" + body + "\n";
    var text := "```json\n" + body + "\n```";
    assert text == FENCE_JSON + (inner + FENCE);
    assert text[..|FENCE_JSON|] == FENCE_JSON;
    assert text[|FENCE_JSON|..] == inner + FENCE;
    assert '`' !in inner by {
      forall i | 0 <= i < |inner|
        ensures inner[i] != '`'
      {
        if 0 < i < |inner| - 1 {
          assert inner[i] == body[i - 1];
        }
      }
    }
    RemoveAllKeepsPrefix(inner, FENCE, FENCE_JSON);
    assert RemoveAll(FENCE, FENCE_JSON) == FENCE;
    RemoveAllKeepsPrefix(inner, FENCE, FENCE);
    assert RemoveAll(FENCE[3..], FENCE) == [];
    assert inner + [] == inner;
    TrimNewlines(body);
  }
}
