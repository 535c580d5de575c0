/** A last line without its newline, in a pacman.conf that omarchy/manifest-client/config.go rewrites:
    what it is, and what it becomes when something is written after it. */
module UnendedLines {
  import opened Text
  import opened ConfigLines
  import opened PacmanConfig
  import opened RewrittenConfig
  import opened Values

  lemma {:induction false} TrimLeftAppend(s: string, more: string, space: char -> bool)
    ensures TrimLeft(s + more, space)
         == if TrimLeft(s, space) == "" then TrimLeft(more, space) else TrimLeft(s, space) + more
  {
    if s == "" {
      assert s + more == more;
    } else {
      assert (s + more)[1..] == s[1..] + more;
      TrimLeftAppend(s[1..], more, space);
    }
  }

  lemma {:induction false} TrimRightMember(s: string, c: char, space: char -> bool)
    requires c in s && !space(c)
    ensures c in TrimRight(s, space)
  {
    if space(s[|s| - 1]) {
      assert s == s[..|s| - 1] + [s[|s| - 1]];
      TrimRightMember(s[..|s| - 1], c, space);
    }
  }

  lemma LowerAppend(a: string, b: string)
    ensures Lower(a + b) == Lower(a) + Lower(b)
  {
  }

  function Ended(line: string): string {
    if line == "" || HasSuffix(line, "\n") then line else line + "\n"
  }

  /** The missing newline does not change what a line is. */
  lemma EndedKind(line: string)
    requires '\n' !in line
    ensures SectionName(Ended(line)) == SectionName(line) && IsServer(Ended(line)) == IsServer(line)
    ensures IsInclude(Ended(line)) == IsInclude(line) && IsSigLevel(Ended(line)) == IsSigLevel(line)
    ensures IsActive(Ended(line)) == IsActive(line) && IsWeakSigLevel(Ended(line)) == IsWeakSigLevel(line)
  {
    if line != "" {
      assert !HasSuffix(line, "\n") && (line + "\n")[..|line|] == line;
      TrimLeftAppend(line, "\n", IsSpace);
      assert TrimLeft("\n", IsSpace) == "";
      var t := TrimLeft(line, IsSpace);
      assert (t + "\n")[..|t|] == t;
      assert TrimSpace(line + "\n") == TrimSpace(line);
    }
  }

  lemma {:induction false} NoNewline(s: string)
    requires '\n' !in s
    ensures SplitAfter(s) == [s]
  {
    if s != "" {
      NoNewline(s[1..]);
      assert s == [s[0]] + s[1..];
    }
  }

  lemma {:induction false} SplitAfterTail(lines: seq<string>, last: string)
    requires (forall i :: 0 <= i < |lines| ==> IsLine(lines[i])) && '\n' !in last
    ensures SplitAfter(Concat(lines) + last) == lines + [last]
  {
    if lines == [] {
      NoNewline(last);
      assert Concat(lines) + last == last && lines + [last] == [last];
    } else {
      SplitAfterTail(lines[1..], last);
      SplitAfterLine(lines[0], Concat(lines[1..]) + last);
      assert Concat(lines) + last == lines[0] + (Concat(lines[1..]) + last);
      assert lines + [last] == [lines[0]] + (lines[1..] + [last]);
    }
  }

  // ----- what is written after such a line -----

  /** The signature line may continue this one and still be a signature line. */
  predicate TakesSigLevel(last: string) {
    TrimSpace(last) == "" || HasPrefix(Lower(TrimSpace(last)), "siglevel")
  }

  lemma {:induction false} TrimRightBlank(s: string, space: char -> bool)
    ensures TrimRight(s, space) == "" <==> forall i :: 0 <= i < |s| ==> space(s[i])
  {
    if s != "" && space(s[|s| - 1]) {
      TrimRightBlank(s[..|s| - 1], space);
    }
  }

  lemma {:induction false} TrimRightPrefix(s: string, space: char -> bool)
    ensures TrimRight(s, space) <= s
  {
    if s != "" && space(s[|s| - 1]) {
      TrimRightPrefix(s[..|s| - 1], space);
    }
  }

  lemma {:induction false} TrimLeftStarts(s: string, space: char -> bool)
    ensures TrimLeft(s, space) != "" ==> !space(TrimLeft(s, space)[0])
  {
    if s != "" && space(s[0]) {
      TrimLeftStarts(s[1..], space);
    }
  }

  /** Trimming on the right does not matter for a prefix of letters. */
  lemma LowerPrefix(x: string, word: string)
    requires word != "" && forall c :: c in word ==> 'a' <= c <= 'z'
    ensures HasPrefix(Lower(TrimRight(x, IsSpace)), word) <==> HasPrefix(Lower(x), word)
  {
    TrimRightPrefix(x, IsSpace);
    LowerKeepsPrefix(x, TrimRight(x, IsSpace));
    if HasPrefix(Lower(x), word) {
      var k := |word|;
      assert Lower(x)[k - 1] == word[k - 1] && word[k - 1] in word;
      assert !IsSpace(x[..k][k - 1]);
      TrimRightKeeps(x, x[..k], IsSpace);
      LowerKeepsPrefix(TrimRight(x, IsSpace), x[..k]);
      assert Lower(x[..k]) == Lower(x)[..k];
    }
  }

  const SIG_TEXT := "SigLevel = Required TrustedOnly"

  lemma SigText()
    ensures SIG_LINE == SIG_TEXT + "\n" && Lower(SIG_TEXT) == "siglevel = required trustedonly"
    ensures SIG_TEXT[|SIG_TEXT| - 1] == 'y' && SIG_TEXT[0] == 'S' && '=' in SIG_TEXT && '\n' !in SIG_TEXT
  {
    SigLowered();
    assert SIG_TEXT[9] == '=';
  }

  /** No shorter start of "siglevel" can be completed by the signature line. */
  lemma NoOverlap(x: string)
    requires x != ""
    ensures HasPrefix(x + "siglevel = required trustedonly", "siglevel") <==> HasPrefix(x, "siglevel")
  {
    var w, word := x + "siglevel = required trustedonly", "siglevel";
    if |x| >= 8 {
      assert w[..8] == x[..8];
    } else {
      assert word[1] != 's' && word[2] != 's' && word[3] != 's' && word[4] != 's' && word[5] != 's';
      assert word[6] != 's' && word[7] != 's' && w[|x|] == 's';
    }
  }

  /** Trimming a line that ends in `text`. */
  lemma TrimGlued(last: string, text: string)
    requires text != "" && !IsSpace(text[0]) && !IsSpace(text[|text| - 1])
    ensures TrimSpace(last + text + "\n") == TrimLeft(last, IsSpace) + text
  {
    var t := TrimLeft(last, IsSpace) + text;
    TrimLeftAppend(last, text, IsSpace);
    assert TrimLeft(text, IsSpace) == text && TrimLeft(last + text, IsSpace) == t;
    TrimLeftAppend(last + text, "\n", IsSpace);
    TrimRightDrops(t, '\n', IsSpace);
    assert t + ['\n'] == t + "\n";
  }

  lemma TrimRightDrops(s: string, c: char, space: char -> bool)
    requires s != "" && !space(s[|s| - 1]) && space(c)
    ensures TrimRight(s + [c], space) == s
  {
    assert (s + [c])[..|s|] == s;
  }

  lemma NoNewlineLast(s: string)
    requires '\n' !in s
    ensures !HasSuffix(s, "\n")
  {
    assert s != "" ==> s[|s| - 1..] == [s[|s| - 1]] && s[|s| - 1] in s;
  }

  lemma LineWith(last: string, text: string)
    requires '\n' !in last && '\n' !in text
    ensures IsLine(last + text + "\n")
    ensures SectionName(last + text + "\n") == SectionName(last + text)
  {
    var g, bare := last + text + "\n", last + text;
    NoNewlineLast(bare);
    assert g[..|g| - 1] == bare && '\n' !in bare;
  }

  /** Only what ends in a bracket can be a header. */
  lemma NoBracket(last: string, text: string)
    requires '\n' !in last && '\n' !in text && text != "" && !IsPatternSpace(text[0])
    requires !IsPatternSpace(text[|text| - 1]) && text[|text| - 1] != ']'
    ensures SectionName(last + text).None?
  {
    var bare := last + text;
    NoNewlineLast(bare);
    TrimLeftAppend(last, text, IsPatternSpace);
    assert TrimLeft(text, IsPatternSpace) == text;
    var t := TrimLeft(bare, IsPatternSpace);
    assert t[|t| - 1] == text[|text| - 1];
    assert TrimRight(t, IsPatternSpace) == t;
  }

  /** A header with an equals sign in it names no repository. */
  lemma EqualsInHeader(last: string, text: string)
    requires '\n' !in last && '\n' !in text && text != "" && !IsPatternSpace(text[0]) && '=' in text
    ensures SectionName(last + text).Some? ==> !GoodName(SectionName(last + text).value)
  {
    var bare := last + text;
    NoNewlineLast(bare);
    TrimLeftAppend(last, text, IsPatternSpace);
    assert TrimLeft(text, IsPatternSpace) == text;
    var t := TrimLeft(bare, IsPatternSpace);
    TrimRightMember(t, '=', IsPatternSpace);
    var u := TrimRight(t, IsPatternSpace);
    if SectionName(bare).Some? {
      var k :| 0 <= k < |u| && u[k] == '=';
      var name := u[1..|u| - 1];
      assert SectionName(bare) == Some(name) && 0 < k < |u| - 1;
      assert name[k - 1] == '=' && '=' in name;
    }
  }

  /** The lower-case text of the signature line after `x`. */
  lemma SigGlued(x: string, lower: string)
    requires lower == x + "siglevel = required trustedonly"
    ensures HasPrefix(lower, "siglevel") <==> x == "" || HasPrefix(x, "siglevel")
    ensures Contains(lower, "required")
  {
    var text := "siglevel = required trustedonly";
    assert text[11..][..8] == "required";
    assert lower[|x| + 11..] == text[11..];
    ContainsAt(lower, "required", |x| + 11);
    if x == "" {
      assert lower[..8] == "siglevel";
    } else {
      NoOverlap(x);
    }
  }

  lemma EqualsAt(x: string, text: string)
    requires '=' in text
    ensures '=' in x + text
  {
  }

  lemma GluedSigLower(last: string)
    ensures var trimmed, x := TrimSpace(last + SIG_LINE), TrimLeft(last, IsSpace);
            && '=' in trimmed && Contains(Lower(trimmed), "required")
            && (HasPrefix(Lower(trimmed), "siglevel") <==> x == "" || HasPrefix(Lower(x), "siglevel"))
  {
    SigText();
    var x := TrimLeft(last, IsSpace);
    assert last + SIG_LINE == last + SIG_TEXT + "\n";
    TrimGlued(last, SIG_TEXT);
    LowerAppend(x, SIG_TEXT);
    SigGlued(Lower(x), Lower(x + SIG_TEXT));
    EqualsAt(x, SIG_TEXT);
  }

  lemma GluedSigIsLine(last: string)
    requires '\n' !in last
    ensures IsLine(last + SIG_LINE) && SectionName(last + SIG_LINE).None?
  {
    SigText();
    assert last + SIG_LINE == last + SIG_TEXT + "\n";
    LineWith(last, SIG_TEXT);
    NoBracket(last, SIG_TEXT);
  }

  /** What the signature line makes of a line that is not one. */
  lemma GluedSigLine(last: string)
    requires '\n' !in last && !IsSigLevel(last)
    ensures var g := last + SIG_LINE;
            && IsLine(g) && SectionName(g).None?
            && (IsSigLevel(g) <==> TakesSigLevel(last)) && !IsWeakSigLevel(g)
            && (TakesSigLevel(last) ==> !IsServer(g) && !IsInclude(g))
  {
    GluedSigIsLine(last);
    GluedSigLower(last);
    LowerPrefix(TrimLeft(last, IsSpace), "siglevel");
    TrimRightBlank(TrimLeft(last, IsSpace), IsSpace);
    TrimLeftStarts(last, IsSpace);
    DirectivesDiffer(last + SIG_LINE);
  }

  /** A server line after another line is neither the signed server line nor the header of a repository. */
  lemma GluedServerLine(last: string, url: string)
    requires '\n' !in last && '\n' !in url && last != ""
    ensures var g := last + ServerLine(url);
            && IsLine(g) && g != ServerLine(url)
            && (SectionName(g).Some? ==> !GoodName(SectionName(g).value))
  {
    var text := "Server = " + url;
    assert text[0] == 'S' && text[7] == '=' && '=' in text;
    assert last + ServerLine(url) == last + text + "\n";
    LineWith(last, text);
    EqualsInHeader(last, text);
  }
}
