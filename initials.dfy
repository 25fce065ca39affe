/** `getInitials` of src/pages/Index.tsx:81-83:
    `name.split(' ').map(n => n[0]).join('').toUpperCase()`. */
module Initials {

  const Space: char := ' '

  /** `s.split(sep)`: the blocks of `s` between separators, in order. Each separator
      closes a token, so `k` separators give `k + 1` tokens, some possibly empty. */
  function Split(s: string, sep: char): (r: seq<string>)
    ensures |r| == multiset(s)[sep] + 1
    ensures forall i :: 0 <= i < |r| ==> sep !in r[i]
    decreases |s|
  {
    if s == [] then [[]]
    else
      assert s == [s[0]] + s[1..];
      var rest := Split(s[1..], sep);
      if s[0] == sep then [[]] + rest
      else [[s[0]] + rest[0]] + rest[1..]
  }

  /** `tokens.join(sep)`, the inverse of `Split`. */
  function Join(tokens: seq<string>, sep: char): (r: string)
    requires |tokens| >= 1
  {
    if |tokens| == 1 then tokens[0] else tokens[0] + [sep] + Join(tokens[1..], sep)
  }

  /** Splitting and joining back with the same separator restores the string. */
  lemma {:induction false} JoinSplit(s: string, sep: char)
    ensures Join(Split(s, sep), sep) == s
  {
    if s != [] {
      JoinSplit(s[1..], sep);
      var rest := Split(s[1..], sep);
      if s[0] == sep {
        assert Split(s, sep)[1..] == rest;
      } else if |rest| == 1 {
        assert Join(Split(s, sep), sep) == [s[0]] + rest[0];
      } else {
        assert Split(s, sep)[1..] == rest[1..];
        assert Join(rest, sep) == rest[0] + [sep] + Join(rest[1..], sep);
      }
    }
  }

  /** Splitting a string whose first part `t` holds no separator glues `t` to the first token of the rest. */
  lemma {:induction false} SplitAfterPlainPrefix(t: string, u: string, sep: char)
    requires sep !in t
    ensures Split(t + u, sep) == [t + Split(u, sep)[0]] + Split(u, sep)[1..]
  {
    if t == [] {
      var su := Split(u, sep);
      assert t + u == u;
      assert t + su[0] == su[0];
      assert su == [su[0]] + su[1..];
    } else {
      var su := Split(u, sep);
      SplitAfterPlainPrefix(t[1..], u, sep);
      assert (t + u)[1..] == t[1..] + u;
      assert [t[0]] + (t[1..] + su[0]) == t + su[0];
    }
  }

  /** Only the separator splits: a string without it is a single token. */
  lemma SplitWithoutSeparator(s: string, sep: char)
    requires sep !in s
    ensures Split(s, sep) == [s]
  {
    SplitAfterPlainPrefix(s, [], sep);
    assert s + [] == s;
  }

  /** Splitting the join of separator-free tokens gives the tokens back. */
  lemma {:induction false} SplitJoin(tokens: seq<string>, sep: char)
    requires |tokens| >= 1
    requires forall i :: 0 <= i < |tokens| ==> sep !in tokens[i]
    ensures Split(Join(tokens, sep), sep) == tokens
  {
    if |tokens| == 1 {
      SplitWithoutSeparator(tokens[0], sep);
    } else {
      var tail := Join(tokens[1..], sep);
      SplitJoin(tokens[1..], sep);
      assert tokens[0] + [sep] + tail == tokens[0] + ([sep] + tail);
      SplitAfterPlainPrefix(tokens[0], [sep] + tail, sep);
      assert ([sep] + tail)[1..] == tail;
      assert tokens[0] + [] == tokens[0];
      assert tokens == [tokens[0]] + tokens[1..];
    }
  }

  /** `n[0]` joined with `join('')`: the first character of a token, or nothing for an
      empty token (whose `[0]` is `undefined`, which `join` renders as ""). */
  function FirstChar(token: string): (r: string)
    ensures |r| == if token == [] then 0 else 1
    ensures token != [] ==> r[0] == token[0]
  {
    if token == [] then [] else [token[0]]
  }

  /** The number of non-empty tokens. */
  function NonEmptyCount(tokens: seq<string>): (n: nat)
    ensures n <= |tokens|
  {
    if tokens == [] then 0
    else (if tokens[0] == [] then 0 else 1) + NonEmptyCount(tokens[1..])
  }

  /** `tokens.map(n => n[0]).join('')`: one character per non-empty token. */
  function FirstChars(tokens: seq<string>): (r: string)
    ensures |r| == NonEmptyCount(tokens)
  {
    if tokens == [] then [] else FirstChar(tokens[0]) + FirstChars(tokens[1..])
  }

  /** A reference reading of the initials, independent of `Split`: the characters of `s`
      that are not spaces and come first or right after a space. `afterSpace` says whether
      the character before `s` (or the start of the name) opens a token. */
  function WordStarts(s: string, afterSpace: bool): (r: string)
    ensures Space !in r
  {
    if s == [] then []
    else (if s[0] != Space && afterSpace then [s[0]] else []) + WordStarts(s[1..], s[0] == Space)
  }

  /** Relates the split-based computation to the reference: at the start of a token the
      first characters of all tokens, in the middle of one those of the following tokens. */
  lemma {:induction false} FirstCharsAreWordStarts(s: string)
    ensures FirstChars(Split(s, Space)) == WordStarts(s, true)
    ensures FirstChars(Split(s, Space)[1..]) == WordStarts(s, false)
  {
    if s != [] {
      FirstCharsAreWordStarts(s[1..]);
      var rest := Split(s[1..], Space);
      if s[0] == Space {
        assert Split(s, Space) == [[]] + rest;
        assert Split(s, Space)[1..] == rest;
      } else {
        var split := Split(s, Space);
        assert split == [[s[0]] + rest[0]] + rest[1..];
        assert split[1..] == rest[1..];
        assert FirstChars(split) == [s[0]] + FirstChars(rest[1..]);
      }
    }
  }

  /** The initials before upper-casing: the first character of every `' '`-separated token,
      in token order, with empty tokens contributing nothing. */
  function RawInitials(name: string): (r: string)
    ensures r == WordStarts(name, true)
    ensures |r| == NonEmptyCount(Split(name, Space))
    ensures |r| <= multiset(name)[Space] + 1
    ensures Space !in r
  {
    FirstCharsAreWordStarts(name);
    FirstChars(Split(name, Space))
  }

  /** `getInitials`: the raw initials passed through `upper` (`toUpperCase`, which is left
      abstract because full Unicode upper-casing may change the length). */
  function GetInitials(name: string, upper: string -> string): (r: string)
    ensures r == upper(WordStarts(name, true))
  {
    upper(RawInitials(name))
  }

  /** The empty name has no initials. */
  lemma EmptyNameHasNoInitials(upper: string -> string)
    requires upper("") == ""
    ensures RawInitials("") == ""
    ensures GetInitials("", upper) == ""
  {
  }

  /** A run of spaces opens no token, whether or not a token was open before it. */
  lemma {:induction false} SpacesHaveNoWordStarts(s: string, afterSpace: bool)
    requires forall i :: 0 <= i < |s| ==> s[i] == Space
    ensures WordStarts(s, afterSpace) == ""
  {
    if s != [] {
      SpacesHaveNoWordStarts(s[1..], true);
    }
  }

  /** A name made only of spaces has no initials. */
  lemma OnlySpacesHasNoInitials(name: string, upper: string -> string)
    requires forall i :: 0 <= i < |name| ==> name[i] == Space
    requires upper("") == ""
    ensures RawInitials(name) == ""
    ensures GetInitials(name, upper) == ""
  {
    SpacesHaveNoWordStarts(name, true);
  }

  /** A non-empty name without spaces has exactly its first character as initial;
      tabs and other whitespace do not split. */
  lemma SingleTokenInitial(name: string)
    requires name != [] && Space !in name
    ensures Split(name, Space) == [name]
    ensures RawInitials(name) == [name[0]]
  {
    SplitWithoutSeparator(name, Space);
  }

  /* The example lemmas below take the literal name as a parameter fixed by `requires`
     rather than writing it into the `ensures`: a literal in the lemma's own contract is
     unfolded character by character wherever the lemma is verified, which the solver
     cannot afford; behind a parameter it is unfolded only once, in the proof body. */

  /** The tokens of "Иван Иванов". */
  lemma TwoWordTokens(name: string)
    requires name == "Иван Иванов"
    ensures Split(name, Space) == ["Иван", "Иванов"]
  {
    var tokens := ["Иван", "Иванов"];
    assert Join(tokens, Space) == name;
    assert Space !in tokens[0] && Space !in tokens[1];
    SplitJoin(tokens, Space);
  }

  /** The first characters of the tokens of "Иван Иванов". */
  lemma TwoWordFirstChars(tokens: seq<string>)
    requires tokens == ["Иван", "Иванов"]
    ensures FirstChars(tokens) == "ИИ"
  {
  }

  /** `getInitials("Иван Иванов")` is the upper-casing of "ИИ". */
  lemma TwoWordExample(name: string, upper: string -> string)
    requires name == "Иван Иванов"
    ensures GetInitials(name, upper) == upper("ИИ")
  {
    TwoWordTokens(name);
    TwoWordFirstChars(Split(name, Space));
  }

  /** `getInitials("Мария")` is the upper-casing of "М". */
  lemma OneWordExample(upper: string -> string)
    ensures GetInitials("Мария", upper) == upper("М")
  {
    SingleTokenInitial("Мария");
  }

  /** The tokens of " Анна  Петрова ": leading, doubled and trailing spaces give empty ones. */
  lemma SpacedTokens(name: string)
    requires name == " Анна  Петрова "
    ensures Split(name, Space) == ["", "Анна", "", "Петрова", ""]
  {
    var tokens := ["", "Анна", "", "Петрова", ""];
    assert Join(tokens, Space) == name;
    assert forall i :: 0 <= i < 5 ==> Space !in tokens[i];
    SplitJoin(tokens, Space);
  }

  /** The first characters of the tokens of " Анна  Петрова ": the empty tokens give none. */
  lemma SpacedFirstChars(tokens: seq<string>)
    requires tokens == ["", "Анна", "", "Петрова", ""]
    ensures FirstChars(tokens) == "АП"
  {
    assert tokens[1..] == ["Анна", "", "Петрова", ""];
    assert tokens[1..][1..] == ["", "Петрова", ""];
    assert tokens[1..][1..][1..] == ["Петрова", ""];
    assert FirstChars(["Петрова", ""]) == "П";
    assert FirstChars(["", "Петрова", ""]) == "П";
    assert FirstChars(["Анна", "", "Петрова", ""]) == "АП";
  }

  /** Empty tokens add nothing to the initials. */
  lemma SpacingExample(name: string)
    requires name == " Анна  Петрова "
    ensures RawInitials(name) == "АП"
  {
    SpacedTokens(name);
    SpacedFirstChars(Split(name, Space));
  }

  /** A tab does not split: the name is one token. */
  lemma TabExample()
    ensures RawInitials("Анна\tПетрова") == "А"
  {
    SingleTokenInitial("Анна\tПетрова");
  }
}
