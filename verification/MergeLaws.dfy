/**
 What the merged text is, read off the blocks from first to last: which texts come out, in which
 order, and where the marks stand between them.
 */
module MergeLaws {
  import opened ContentMerge

  // ---------- The marks ----------

  datatype Before = Nothing | After(part: Part)

  /**
   The texts of the content blocks in order. Before each but the first comes \U{3} when blocks were
   left out since the content block before it, and a space when that one was not blank; before a
   block on a line of its own comes \U{2}.
   */
  function Assembled(ps: seq<Part>, before: Before, leftOut: bool): string {
    if ps == [] then ""
    else if !ps[0].content then Assembled(ps[1..], before, true)
    else
      (if before.After? && leftOut then "\U{3}" else "")
      + (if before.After? && !before.part.allBlank then " " else "")
      + (if ps[0].ownLine then "\U{2}" else "")
      + ps[0].text
      + Assembled(ps[1..], After(ps[0]), false)
  }

  /** The texts of the blocks that are not bad, \U{2} after those on a line of their own. */
  function Listed(ps: seq<Part>): string {
    if ps == [] then ""
    else (if ps[0].bad then "" else ps[0].text + if ps[0].ownLine then "\U{2}" else "") + Listed(ps[1..])
  }

  predicate HasContent(ps: seq<Part>) {
    exists i :: 0 <= i < |ps| && ps[i].content
  }

  function BeforeAt(ps: seq<Part>, n: nat): Before
    requires n <= |ps|
  {
    var i := Previous(ps, n);
    if i < 0 then Nothing else After(ps[i])
  }

  lemma LeadAt(ps: seq<Part>, n: nat)
    requires n < |ps|
    ensures Lead(ps, n) ==
            (if BeforeAt(ps, n).After? && Previous(ps, n) < n - 1 then "\U{3}" else "")
            + (if BeforeAt(ps, n).After? && !BeforeAt(ps, n).part.allBlank then " " else "")
            + (if ps[n].ownLine then "\U{2}" else "")
  {
  }

  lemma {:induction false} ContentIsAssembledFrom(ps: seq<Part>, n: nat)
    requires n <= |ps|
    ensures ContentUpTo(ps, |ps|) ==
            ContentUpTo(ps, n) + Assembled(ps[n..], BeforeAt(ps, n), Previous(ps, n) < n - 1)
    decreases |ps| - n
  {
    hide Lead;
    if n < |ps| {
      ContentIsAssembledFrom(ps, n + 1);
      assert ps[n..][1..] == ps[n + 1..];
      LeadAt(ps, n);
      if ps[n].content {
        var rest := Assembled(ps[n + 1..], After(ps[n]), false);
        assert ContentUpTo(ps, n) + (Lead(ps, n) + ps[n].text) + rest
            == ContentUpTo(ps, n) + (Lead(ps, n) + ps[n].text + rest);
      }
    }
  }

  lemma {:induction false} RestIsListedFrom(ps: seq<Part>, n: nat)
    requires n <= |ps|
    ensures RestUpTo(ps, |ps|) == RestUpTo(ps, n) + Listed(ps[n..])
    decreases |ps| - n
  {
    if n < |ps| {
      RestIsListedFrom(ps, n + 1);
      assert ps[n..][1..] == ps[n + 1..];
    }
  }

  /** The merged text: that of the content blocks, or of all that are not bad on a list page or without content. */
  lemma MergedIsAssembled(ps: seq<Part>, isList: bool)
    ensures Merged(ps, isList) == if !isList && HasContent(ps) then Assembled(ps, Nothing, false) else Listed(ps)
  {
    ContentIsAssembledFrom(ps, 0);
    RestIsListedFrom(ps, 0);
    assert ps[0..] == ps;
    assert HasContent(ps) <==> Previous(ps, |ps|) >= 0;
  }

  // ---------- The texts ----------

  /** A text without the characters that the merge puts in. */
  function Letters(s: string): string {
    if s == "" then ""
    else (if s[0] == '\U{2}' || s[0] == '\U{3}' || s[0] == ' ' then "" else [s[0]]) + Letters(s[1..])
  }

  lemma {:induction false} LettersConcat(s: string, t: string)
    ensures Letters(s + t) == Letters(s) + Letters(t)
    decreases |s|
  {
    if s == "" {
      assert s + t == t;
    } else {
      assert (s + t)[1..] == s[1..] + t;
      LettersConcat(s[1..], t);
    }
  }

  /** The texts of the content blocks, or of all that are not bad, one after the other. */
  function Texts(ps: seq<Part>, ofContent: bool): string {
    if ps == [] then ""
    else (if (if ofContent then ps[0].content else !ps[0].bad) then ps[0].text else "") + Texts(ps[1..], ofContent)
  }

  lemma OnlyMarks(section: bool, space: bool, paragraph: bool)
    ensures Letters((if section then "\U{3}" else "") + (if space then " " else "")
                    + (if paragraph then "\U{2}" else "")) == ""
  {
    LettersConcat((if section then "\U{3}" else "") + (if space then " " else ""), if paragraph then "\U{2}" else "");
    LettersConcat(if section then "\U{3}" else "", if space then " " else "");
  }

  lemma {:induction false} AssembledLetters(ps: seq<Part>, before: Before, leftOut: bool)
    ensures Letters(Assembled(ps, before, leftOut)) == Letters(Texts(ps, true))
    decreases |ps|
  {
    hide Letters;
    if ps != [] {
      var rest := Texts(ps[1..], true);
      if ps[0].content {
        var section, space := before.After? && leftOut, before.After? && !before.part.allBlank;
        var marks := (if section then "\U{3}" else "") + (if space then " " else "")
                     + (if ps[0].ownLine then "\U{2}" else "");
        OnlyMarks(section, space, ps[0].ownLine);
        AssembledLetters(ps[1..], After(ps[0]), false);
        LettersConcat(marks + ps[0].text, Assembled(ps[1..], After(ps[0]), false));
        LettersConcat(marks, ps[0].text);
        LettersConcat(ps[0].text, rest);
      } else {
        AssembledLetters(ps[1..], before, true);
        assert "" + rest == rest;
      }
    }
  }

  lemma {:induction false} ListedLetters(ps: seq<Part>)
    ensures Letters(Listed(ps)) == Letters(Texts(ps, false))
    decreases |ps|
  {
    hide Letters;
    if ps != [] {
      var rest := Texts(ps[1..], false);
      ListedLetters(ps[1..]);
      if ps[0].bad {
        assert "" + Listed(ps[1..]) == Listed(ps[1..]) && "" + rest == rest;
      } else {
        var mark := if ps[0].ownLine then "\U{2}" else "";
        OnlyMarks(false, false, ps[0].ownLine);
        assert "" + "" + mark == mark;
        LettersConcat(ps[0].text + mark, Listed(ps[1..]));
        LettersConcat(ps[0].text, mark);
        LettersConcat(ps[0].text, rest);
      }
    }
  }

  /** Spaces and marks aside, the chosen texts come out whole and in page order, and nothing else does. */
  lemma MergedKeepsTheTexts(ps: seq<Part>, isList: bool)
    ensures Letters(Merged(ps, isList)) == Letters(Texts(ps, !isList && HasContent(ps)))
  {
    hide Letters, Merged;
    MergedIsAssembled(ps, isList);
    AssembledLetters(ps, Nothing, false);
    ListedLetters(ps);
  }
}
