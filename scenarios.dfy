/** Concrete lines and files, worked through the model. */
module Scenarios {
  import opened Wrappers
  import opened Text
  import opened LangFile
  import opened CsetMarker

  /** Whitespace before the `:` is stripped from the name. */
  lemma SpaceBeforeColon()
    ensures ProcessLangLine("key  :value") == Some("key")
  {
    assert "key  :value" == "key  " + ":" + "value" by {}
    assert RStrip("key  ") == "key" by {
      assert "key  "[3..] == "  ";
      RStripUnique("key  ", "key");
    }
    assert ProcessLangLine("key  " + ":" + "value") == Some(RStrip("key  ")) by {
      ProcessDeclaration("key  ", "value");
    }
  }

  /** Leading whitespace is kept, so a `#` after it does not make a comment. */
  lemma IndentedHashIsNoComment()
    ensures ProcessLangLine("  #x:y") == Some("  #x")
    ensures ProcessLangLine("#x:y") == None
  {
    assert "  #x:y" == "  #x" + ":" + "y" by {}
    assert RStrip("  #x") == "  #x" by {
      RStripUnique("  #x", "  #x");
    }
    assert ProcessLangLine("  #x" + ":" + "y") == Some(RStrip("  #x")) by {
      ProcessDeclaration("  #x", "y");
    }
    assert "#x:y" == "#x" + ":" + "y" by {}
    assert ProcessLangLine("#x" + ":" + "y") == None by {
      ProcessDeclaration("#x", "y");
    }
  }

  /** A line starting with `:` declares the empty name. */
  lemma EmptyName()
    ensures ProcessLangLine(":value\n") == Some("")
  {
    assert ":value\n" == "" + ":" + "value\n" by {}
    assert ProcessLangLine("" + ":" + "value\n") == Some(RStrip("")) by {
      ProcessDeclaration("", "value\n");
    }
  }

  /*
   * The changeset scenarios below take their line as a parameter fixed by
   * `requires line == "..."` rather than as a local literal: this keeps the
   * solver from unfolding the matcher over the literal's characters all at
   * once, and the proof steps then work on it one by one.
   */

  /** A 4-character token is no changeset. */
  lemma ShortTokenIsNoCset(line: string)
    requires line == "// cset: abcd"
    ensures FirstCset([line]) == None
  {
    assert MatchAt(line, 0) == Some("abcd") by {
      assert CapturesAt(line, 0, 3, 9, "abcd");
      MatchAtComplete(line, 0, 3, 9, "abcd");
    }
    assert !HasCset(line);
    assert [line][0] == line;
  }

  /** A 5-character token is a changeset. */
  lemma FiveCharTokenIsCset(line: string)
    requires line == "// cset: abcde"
    ensures FirstCset([line]) == Some("abcde")
  {
    assert MatchAt(line, 0) == Some("abcde") by {
      assert CapturesAt(line, 0, 3, 9, "abcde");
      MatchAtComplete(line, 0, 3, 9, "abcde");
    }
    assert HasCset(line);
    assert [line][0] == line;
  }

  /** The class `[0-9A-F[a-f]` lets `[` into a token, and no blanks are needed around `cset:`. */
  lemma BracketsAreTokenCharacters(line: string)
    requires line == "//cset:[[[[["
    ensures FirstCset([line]) == Some("[[[[[")
  {
    assert MatchAt(line, 0) == Some("[[[[[") by {
      assert CapturesAt(line, 0, 2, 7, "[[[[[");
      MatchAtComplete(line, 0, 2, 7, "[[[[[");
    }
    assert HasCset(line);
    assert [line][0] == line;
  }

  /**
   * Only the leftmost match of a line is looked at: the token after the
   * second marker of this line would qualify on its own ...
   */
  lemma LaterMatchQualifies(line: string)
    requires line == "//cset:ab //cset:abcde"
    ensures MatchAt(line, 10) == Some("abcde")
  {
    assert CapturesAt(line, 10, 12, 17, "abcde");
    MatchAtComplete(line, 10, 12, 17, "abcde");
  }

  /** ... yet the line carries no changeset, because its leftmost match captured only "ab". */
  lemma LeftmostMatchOnly(line: string)
    requires line == "//cset:ab //cset:abcde"
    ensures FirstCset([line]) == None
  {
    assert MatchAt(line, 0) == Some("ab") by {
      assert CapturesAt(line, 0, 2, 7, "ab");
      MatchAtComplete(line, 0, 2, 7, "ab");
    }
    assert !HasCset(line);
    assert [line][0] == line;
  }
}
