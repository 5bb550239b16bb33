/** Normalize (internal/spec/normalize.go): from a human label to a candidate exported Go
    identifier. The word-splitting code is proved to compute one character transducer, about
    which the guarantees are then proved. */
module Normalize {
  import opened Text
  import opened Names
  import opened Spec

  predicate Ascii(c: char) { c as int < 0x80 }

  /** One rune's ASCII contribution: Latin-1 letters fold, anything else becomes a space. */
  function FoldToASCII(r: char): string {
    if Ascii(r) then [r]
    else if r in "ÀÁÂÃÄÅ" then "A"
    else if r == 'Æ' then "AE"
    else if r == 'Ç' then "C"
    else if r in "ÈÉÊË" then "E"
    else if r in "ÌÍÎÏ" then "I"
    else if r == 'Ð' then "D"
    else if r == 'Ñ' then "N"
    else if r in "ÒÓÔÕÖØ" then "O"
    else if r in "ÙÚÛÜ" then "U"
    else if r == 'Ý' then "Y"
    else if r == 'Þ' then "TH"
    else if r == 'ß' then "ss"
    else if r in "àáâãäå" then "a"
    else if r == 'æ' then "ae"
    else if r == 'ç' then "c"
    else if r in "èéêë" then "e"
    else if r in "ìíîï" then "i"
    else if r == 'ð' then "d"
    else if r == 'ñ' then "n"
    else if r in "òóôõöø" then "o"
    else if r in "ùúûü" then "u"
    else if r in "ýÿ" then "y"
    else if r == 'þ' then "th"
    else " "
  }

  function Fold(caption: string): string {
    if caption == "" then "" else FoldToASCII(caption[0]) + Fold(caption[1..])
  }

  /** A letter the fold table cannot represent. */
  predicate Unfoldable(lib: Library, r: char) {
    !Ascii(r) && FoldToASCII(r) == " " && lib.isLetter(r)
  }

  predicate HasAlnum(s: string) { exists i :: 0 <= i < |s| && Alnum(s[i]) }

  function UpperChar(c: char): char {
    if Lower(c) then ('A' as int + (c as int - 'a' as int)) as char else c
  }

  function UpperFirst(w: string): string {
    if w == "" then "" else [UpperChar(w[0])] + w[1..]
  }

  function UpperAll(words: seq<string>): string {
    if words == [] then "" else UpperFirst(words[0]) + UpperAll(words[1..])
  }

  /** The words still to come when `cur` is the word being read. */
  function Words(cur: string, s: string): seq<string>
    decreases |s|
  {
    if s == "" then (if cur == "" then [] else [cur])
    else if !Alnum(s[0]) then (if cur == "" then [] else [cur]) + Words("", s[1..])
    else if cur != "" && Lower(cur[|cur| - 1]) && Upper(s[0]) then [cur] + Words([s[0]], s[1..])
    else Words(cur + [s[0]], s[1..])
  }

  /** Keep the alphanumerics; upper-case one that does not follow another. */
  function Pascal(inWord: bool, s: string): string
    decreases |s|
  {
    if s == "" then ""
    else if !Alnum(s[0]) then Pascal(false, s[1..])
    else [if inWord then s[0] else UpperChar(s[0])] + Pascal(true, s[1..])
  }

  const DIGIT_WORDS: seq<string> :=
    ["Zero", "One", "Two", "Three", "Four", "Five", "Six", "Seven", "Eight", "Nine"]

  function SpellDigits(s: string): string {
    if s != "" && Digit(s[0]) then DIGIT_WORDS[s[0] as int - '0' as int] + SpellDigits(s[1..]) else s
  }

  /** What Normalize computes, with no words in it. */
  function Normal(lib: Library, caption: string): Option<string> {
    if exists i :: 0 <= i < |caption| && Unfoldable(lib, caption[i]) then None
    else
      var out := Pascal(false, Fold(caption));
      if out == "" then None else Some(SpellDigits(out))
  }

  method SplitWords(s: string) returns (words: seq<string>)
    ensures words == Words("", s)
  {
    words := [];
    var cur: string := "";
    for i := 0 to |s|
      invariant words + Words(cur, s[i..]) == Words("", s)
    {
      var c := s[i];
      ghost var before := words;
      assert s[i..][1..] == s[i + 1..] && s[i..][0] == c;
      assert before + ([cur] + Words([c], s[i + 1..])) == before + [cur] + Words([c], s[i + 1..]);
      assert before + ([cur] + Words("", s[i + 1..])) == before + [cur] + Words("", s[i + 1..]);
      assert [] + Words("", s[i + 1..]) == Words("", s[i + 1..]);
      assert "" + [c] == [c];
      if Alnum(c) {
        if cur != "" && Lower(cur[|cur| - 1]) && Upper(c) {
          words, cur := words + [cur], "";
        }
        cur := cur + [c];
      } else {
        if cur != "" {
          words, cur := words + [cur], "";
        }
      }
    }
    if cur != "" {
      words := words + [cur];
    }
  }

  lemma UpperAllCons(w: string, words: seq<string>)
    ensures UpperAll([w] + words) == UpperFirst(w) + UpperAll(words)
  {
    assert ([w] + words)[1..] == words;
  }

  lemma HasAlnumTail(s: string)
    requires s != ""
    ensures HasAlnum(s) <==> Alnum(s[0]) || HasAlnum(s[1..])
  {
    if HasAlnum(s) && !Alnum(s[0]) {
      var i :| 0 <= i < |s| && Alnum(s[i]);
      assert Alnum(s[1..][i - 1]);
    }
    if HasAlnum(s[1..]) {
      var i :| 0 <= i < |s| - 1 && Alnum(s[1..][i]);
      assert Alnum(s[i + 1]);
    }
  }

  lemma NoWords()
    ensures UpperAll([]) == "" && UpperFirst("") == "" && !HasAlnum("")
  {
  }

  lemma UpperFirstSnoc(cur: string, c: char)
    ensures UpperFirst(cur + [c]) == if cur == "" then [UpperChar(c)] else UpperFirst(cur) + [c]
  {
  }

  ghost predicate WordsAgree(cur: string, s: string) {
    && UpperAll(Words(cur, s)) == UpperFirst(cur) + Pascal(cur != "", s)
    && (Words(cur, s) == [] <==> cur == "" && !HasAlnum(s))
  }

  lemma WordSkips(cur: string, s: string)
    requires s != "" && !Alnum(s[0]) && WordsAgree("", s[1..])
    ensures WordsAgree(cur, s)
  {
    hide UpperAll, UpperFirst, HasAlnum;
    NoWords();
    HasAlnumTail(s);
    UpperAllCons(cur, Words("", s[1..]));
    assert [] + Words("", s[1..]) == Words("", s[1..]);
  }

  lemma WordBreaks(cur: string, s: string)
    requires s != "" && cur != "" && Alnum(s[0]) && Lower(cur[|cur| - 1]) && Upper(s[0]) && WordsAgree([s[0]], s[1..])
    ensures WordsAgree(cur, s)
  {
    hide UpperAll, UpperFirst, HasAlnum, UpperChar;
    NoWords();
    HasAlnumTail(s);
    UpperFirstSnoc("", s[0]);
    assert "" + [s[0]] == [s[0]];
    UpperAllCons(cur, Words([s[0]], s[1..]));
    UpperCharKeeps(s[0]);
  }

  lemma WordGrows(cur: string, s: string)
    requires s != "" && Alnum(s[0]) && !(cur != "" && Lower(cur[|cur| - 1]) && Upper(s[0]))
    requires WordsAgree(cur + [s[0]], s[1..])
    ensures WordsAgree(cur, s)
  {
    hide UpperAll, UpperFirst, HasAlnum, UpperChar;
    NoWords();
    HasAlnumTail(s);
    UpperFirstSnoc(cur, s[0]);
  }

  lemma {:induction false} WordsArePascal(cur: string, s: string)
    ensures UpperAll(Words(cur, s)) == UpperFirst(cur) + Pascal(cur != "", s)
    ensures Words(cur, s) == [] <==> cur == "" && !HasAlnum(s)
    decreases |s|
  {
    if s == "" {
      UpperAllCons(cur, []);
      assert [cur] + [] == [cur];
    } else if !Alnum(s[0]) {
      WordsArePascal("", s[1..]);
      WordSkips(cur, s);
    } else if cur != "" && Lower(cur[|cur| - 1]) && Upper(s[0]) {
      WordsArePascal([s[0]], s[1..]);
      WordBreaks(cur, s);
    } else {
      WordsArePascal(cur + [s[0]], s[1..]);
      WordGrows(cur, s);
    }
  }

  lemma UpperCharKeeps(c: char)
    requires Upper(c)
    ensures UpperChar(c) == c
  {
  }

  method FoldLabel(lib: Library, caption: string) returns (folded: string, dropped: bool)
    ensures folded == Fold(caption)
    ensures dropped <==> exists i :: 0 <= i < |caption| && Unfoldable(lib, caption[i])
  {
    hide FoldToASCII;
    folded, dropped := "", false;
    for i := 0 to |caption|
      invariant folded + Fold(caption[i..]) == Fold(caption)
      invariant dropped <==> exists k :: 0 <= k < i && Unfoldable(lib, caption[k])
    {
      assert caption[i..][1..] == caption[i + 1..];
      var f := FoldToASCII(caption[i]);
      if !Ascii(caption[i]) && f == " " && lib.isLetter(caption[i]) {
        dropped := true;
      }
      folded := folded + f;
    }
  }

  method JoinWords(words: seq<string>) returns (out: string)
    ensures out == UpperAll(words)
  {
    hide UpperAll, UpperFirst;
    out := "";
    assert words[0..] == words;
    for i := 0 to |words|
      invariant out + UpperAll(words[i..]) == UpperAll(words)
    {
      assert words[i..] == [words[i]] + words[i + 1..];
      UpperAllCons(words[i], words[i + 1..]);
      out := out + UpperFirst(words[i]);
    }
    NoWords();
  }

  method RepairLeadingDigits(out: string) returns (spelled: string)
    ensures spelled == SpellDigits(out)
  {
    assert |DIGIT_WORDS| == 10;
    hide SpellDigits, DIGIT_WORDS;
    spelled := "";
    var end := 0;
    assert out[0..] == out;
    while end < |out| && Digit(out[end])
      invariant 0 <= end <= |out|
      invariant spelled + SpellDigits(out[end..]) == SpellDigits(out)
    {
      SpellStep(out, end);
      spelled := spelled + DIGIT_WORDS[out[end] as int - '0' as int];
      end := end + 1;
    }
    SpellStops(out, end);
    spelled := spelled + out[end..];
  }

  lemma SpellStep(out: string, end: nat)
    requires end < |out| && Digit(out[end])
    ensures SpellDigits(out[end..]) == DIGIT_WORDS[out[end] as int - '0' as int] + SpellDigits(out[end + 1..])
  {
    hide DIGIT_WORDS;
    assert out[end..][1..] == out[end + 1..];
  }

  lemma SpellStops(out: string, end: nat)
    requires end <= |out| && (end < |out| ==> !Digit(out[end]))
    ensures SpellDigits(out[end..]) == out[end..]
  {
  }

  method NormalizeLabel(lib: Library, caption: string) returns (ident: Option<string>)
    ensures ident == Normal(lib, caption)
  {
    var folded, dropped := FoldLabel(lib, caption);
    hide Fold, Unfoldable;
    if dropped {
      return None;
    }
    var words := SplitWords(folded);
    WordsArePascal("", folded);
    PascalShape(false, folded);
    if words == [] {
      return None;
    }
    var out := JoinWords(words);
    assert out == Pascal(false, folded);
    out := RepairLeadingDigits(out);
    // The source's final check, which never fires.
    NormalIsExported(lib, caption);
    if !IsExportedGoIdent(out) {
      assert false;
    }
    return Some(out);
  }

  lemma {:induction false} PascalShape(inWord: bool, s: string)
    ensures forall i :: 0 <= i < |Pascal(inWord, s)| ==> Alnum(Pascal(inWord, s)[i])
    ensures Pascal(inWord, s) != "" <==> HasAlnum(s)
    ensures !inWord && Pascal(inWord, s) != "" ==> !Lower(Pascal(inWord, s)[0])
    decreases |s|
  {
    if s != "" {
      PascalShape(Alnum(s[0]), s[1..]);
      assert s == [s[0]] + s[1..];
      if Alnum(s[0]) { assert HasAlnum(s); }
      else {
        assert HasAlnum(s) <==> HasAlnum(s[1..]) by {
          if HasAlnum(s) { var i :| 0 <= i < |s| && Alnum(s[i]); assert Alnum(s[1..][i - 1]); }
          if HasAlnum(s[1..]) { var i :| 0 <= i < |s| - 1 && Alnum(s[1..][i]); assert Alnum(s[i + 1]); }
        }
      }
    }
  }

  lemma {:induction false} SpellDigitsExports(s: string)
    requires s != "" && forall i :: 0 <= i < |s| ==> Alnum(s[i])
    requires !Lower(s[0])
    ensures var r := SpellDigits(s); r != "" && Upper(r[0]) && forall i :: 0 <= i < |r| ==> Alnum(r[i])
  {
    if Digit(s[0]) {
      DigitWordsExport(s[0] as int - '0' as int);
      SpellDigitsAlnum(s[1..]);
      hide DIGIT_WORDS;
      var w := DIGIT_WORDS[s[0] as int - '0' as int];
      assert SpellDigits(s) == w + SpellDigits(s[1..]);
    }
  }

  lemma DigitWordsExport(k: nat)
    requires k < 10
    ensures var w := DIGIT_WORDS[k]; w != "" && Upper(w[0]) && forall i :: 0 <= i < |w| ==> Alnum(w[i])
  {
  }

  lemma {:induction false} SpellDigitsAlnum(s: string)
    requires forall i :: 0 <= i < |s| ==> Alnum(s[i])
    ensures forall i :: 0 <= i < |SpellDigits(s)| ==> Alnum(SpellDigits(s)[i])
  {
    if s != "" && Digit(s[0]) {
      DigitWordsExport(s[0] as int - '0' as int);
      SpellDigitsAlnum(s[1..]);
      hide DIGIT_WORDS;
    }
  }

  lemma KeywordsAreLower(name: string)
    requires name in GO_KEYWORDS
    ensures name != "" && Lower(name[0])
  {
  }

  /** Whatever Normalize returns is an exported identifier, made of letters and digits. */
  lemma NormalIsExported(lib: Library, caption: string)
    ensures Normal(lib, caption).Some? ==>
      var name := Normal(lib, caption).value;
      IsExportedGoIdent(name) && forall i :: 0 <= i < |name| ==> Alnum(name[i])
  {
    PascalShape(false, Fold(caption));
    if Normal(lib, caption).Some? {
      SpellDigitsExports(Pascal(false, Fold(caption)));
      if Normal(lib, caption).value in GO_KEYWORDS { KeywordsAreLower(Normal(lib, caption).value); }
    }
  }

  lemma {:induction false} FoldKeepsAlnum(s: string)
    ensures HasAlnum(Fold(s)) <==> exists i :: 0 <= i < |s| && HasAlnum(FoldToASCII(s[i]))
  {
    hide FoldToASCII;
    if s != "" {
      FoldKeepsAlnum(s[1..]);
      var head, tail := FoldToASCII(s[0]), Fold(s[1..]);
      AlnumConcat(head, tail);
      if HasAlnum(tail) {
        var i :| 0 <= i < |s[1..]| && HasAlnum(FoldToASCII(s[1..][i]));
        assert HasAlnum(FoldToASCII(s[i + 1]));
      }
      if i :| 0 <= i < |s| && HasAlnum(FoldToASCII(s[i])) {
        if i > 0 { assert HasAlnum(FoldToASCII(s[1..][i - 1])); }
      }
    }
  }

  lemma AlnumConcat(a: string, b: string)
    ensures HasAlnum(a + b) <==> HasAlnum(a) || HasAlnum(b)
  {
    if HasAlnum(a) { var i :| 0 <= i < |a| && Alnum(a[i]); assert Alnum((a + b)[i]); }
    if HasAlnum(b) { var i :| 0 <= i < |b| && Alnum(b[i]); assert Alnum((a + b)[|a| + i]); }
  }

  /** Normalize fails exactly on an unfoldable letter or on no alphanumeric content. */
  lemma NormalFailsExactly(lib: Library, caption: string)
    ensures Normal(lib, caption).None? <==>
      || (exists i :: 0 <= i < |caption| && Unfoldable(lib, caption[i]))
      || (forall i :: 0 <= i < |caption| ==> !HasAlnum(FoldToASCII(caption[i])))
  {
    hide Fold, FoldToASCII;
    PascalShape(false, Fold(caption));
    FoldKeepsAlnum(caption);
  }

  lemma {:induction false} AsciiFoldsToItself(s: string)
    requires forall i :: 0 <= i < |s| ==> Alnum(s[i])
    ensures Fold(s) == s
  {
    if s != "" {
      AsciiFoldsToItself(s[1..]);
      assert s == [s[0]] + s[1..];
    }
  }

  lemma {:induction false} PascalKeepsAlnum(inWord: bool, s: string)
    requires forall i :: 0 <= i < |s| ==> Alnum(s[i])
    requires !inWord && s != "" ==> !Lower(s[0])
    ensures Pascal(inWord, s) == s
    decreases |s|
  {
    if s != "" {
      PascalKeepsAlnum(true, s[1..]);
      assert s == [s[0]] + s[1..];
    }
  }

  /** Normalizing an identifier Normalize produced changes nothing. */
  lemma NormalIsIdempotent(lib: Library, caption: string)
    requires Normal(lib, caption).Some?
    ensures Normal(lib, Normal(lib, caption).value) == Normal(lib, caption)
  {
    var name := Normal(lib, caption).value;
    NormalIsExported(lib, caption);
    AsciiFoldsToItself(name);
    PascalKeepsAlnum(false, name);
    assert forall i :: 0 <= i < |name| ==> !Unfoldable(lib, name[i]);
  }
}
