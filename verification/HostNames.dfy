/**
 * Names the host shows for PS2 names: `sanitize_host_filename` of `src/host/pfs_export.cpp` and the
 * collision suffixes shared by the export and the mounted namespace. Names are byte strings; a byte
 * is the character with its value.
 */
module HostNames {

  // ---- ASCII case ----

  function UpperChar(c: char): (r: char)
    ensures !('a' <= c <= 'z') ==> r == c
    ensures !('a' <= r <= 'z')
  {
    if 'a' <= c <= 'z' then (c as int - 32) as char else c
  }

  function Uppercase(text: string): (r: string)
    ensures |r| == |text| && forall i :: 0 <= i < |text| ==> r[i] == UpperChar(text[i])
  {
    seq(|text|, i requires 0 <= i < |text| => UpperChar(text[i]))
  }

  method UppercaseAscii(text: string) returns (r: string)
    ensures r == Uppercase(text)
  {
    r := text;
    for i := 0 to |text|
      invariant |r| == |text|
      invariant forall k :: 0 <= k < i ==> r[k] == UpperChar(text[k])
      invariant forall k :: i <= k < |text| ==> r[k] == text[k]
    {
      if 'a' <= r[i] <= 'z' {
        r := r[i := (r[i] as int - 32) as char];
      }
    }
  }

  // ---- names the host cannot hold ----

  /** What comes before the first dot. */
  function Stem(name: string): (r: string)
    ensures r <= name && '.' !in r
    ensures r == name || name[|r|] == '.'
  {
    if name == "" || name[0] == '.' then "" else [name[0]] + Stem(name[1..])
  }

  /** Device names, with any extension and in any case. */
  predicate Reserved(name: string) {
    DeviceStem(Uppercase(Stem(name)))
  }

  predicate DeviceStem(stem: string) {
    || stem in {"CON", "PRN", "AUX", "NUL"}
    || (|stem| == 4 && (stem[..3] == "COM" || stem[..3] == "LPT") && '1' <= stem[3] <= '9')
  }

  lemma DeviceStemIsPlain(stem: string, k: nat)
    requires DeviceStem(stem) && k < |stem|
    ensures stem[k] != '_'
  {
    if |stem| == 4 {
      var three := stem[..3];
      assert k < 3 ==> stem[k] == three[k];
    }
  }

  predicate IllegalChar(c: char) {
    c as int < 0x20 || c in {'<', '>', ':', '"', '/', '\\', '|', '?', '*'}
  }

  predicate Legal(name: string) {
    && name != "" && !Reserved(name)
    && (forall c :: c in name ==> !IllegalChar(c))
    && name[|name| - 1] != '.' && name[|name| - 1] != ' '
  }

  function Mapped(name: string): (r: string)
    ensures |r| == |name|
    ensures forall i :: 0 <= i < |name| ==> r[i] == if IllegalChar(name[i]) then '_' else name[i]
  {
    seq(|name|, i requires 0 <= i < |name| => if IllegalChar(name[i]) then '_' else name[i])
  }

  /** The mapped name with a placeholder for nothing and no dot or space at its end. */
  function Trimmed(name: string): string {
    var mapped := Mapped(name);
    var named := if mapped in {"", ".", ".."} then "_" else mapped;
    if named[|named| - 1] in {' ', '.'} then named[..|named| - 1] + "_" else named
  }

  function Sanitize(name: string): string {
    if Reserved(Trimmed(name)) then "_" + Trimmed(name) else Trimmed(name)
  }

  method SanitizeHostFilename(name: string) returns (result: string)
    ensures result == Sanitize(name)
  {
    hide Reserved;
    result := "";
    for i := 0 to |name|
      invariant |result| == i
      invariant forall k :: 0 <= k < i ==> result[k] == Mapped(name)[k]
    {
      result := result + [if IllegalChar(name[i]) then '_' else name[i]];
    }
    assert result == Mapped(name);
    if result in {"", ".", ".."} {
      result := "_";
    }
    while result != "" && (result[|result| - 1] == ' ' || result[|result| - 1] == '.')
      invariant result != ""
      invariant result[|result| - 1] in {' ', '.'} ==> result[..|result| - 1] + "_" == Trimmed(name)
      invariant result[|result| - 1] !in {' ', '.'} ==> result == Trimmed(name)
      decreases if result[|result| - 1] in {' ', '.'} then 1 else 0
    {
      result := result[..|result| - 1] + "_";
    }
    if Reserved(result) {
      result := "_" + result;
    }
  }

  /** A device name holds no underscore before its first dot. */
  lemma {:induction false} UnderscoreIsFree(name: string)
    requires '_' in Stem(name)
    ensures !Reserved(name)
  {
    hide DeviceStem;
    var stem := Stem(name);
    var k :| 0 <= k < |stem| && stem[k] == '_';
    var upper := Uppercase(stem);
    assert upper[k] == '_';
    if DeviceStem(upper) {
      DeviceStemIsPlain(upper, k);
    }
  }

  lemma TrimmedIsClean(name: string)
    ensures var t := Trimmed(name);
      t != "" && t[|t| - 1] != '.' && t[|t| - 1] != ' ' && forall c :: c in t ==> !IllegalChar(c)
  {
  }

  /** Every sanitised name is legal on the host, and legal names are exactly those left as they are. */
  lemma SanitizeFixesExactlyTheIllegal(name: string)
    ensures Legal(Sanitize(name))
    ensures Sanitize(name) == name <==> Legal(name)
  {
    hide Reserved, IllegalChar, Trimmed, Mapped;
    TrimmedIsClean(name);
    if Reserved(Trimmed(name)) {
      UnderscoreFirst(Trimmed(name));
    }
    if Legal(name) {
      LegalIsTrimmed(name);
    }
  }

  lemma UnderscoreFirst(name: string)
    ensures !Reserved("_" + name)
    ensures (forall c :: c in name ==> !IllegalChar(c)) ==> forall c :: c in "_" + name ==> !IllegalChar(c)
  {
    assert ("_" + name)[0] == '_';
    UnderscoreIsFree("_" + name);
  }

  lemma LegalIsTrimmed(name: string)
    requires Legal(name)
    ensures Trimmed(name) == name
  {
    hide Reserved, IllegalChar;
    forall i | 0 <= i < |name| ensures Mapped(name)[i] == name[i] {
      assert name[i] in name;
    }
    assert Mapped(name) == name;
    assert name[|name| - 1] != '.';
  }

  lemma SanitizeIdempotent(name: string)
    ensures Sanitize(Sanitize(name)) == Sanitize(name)
  {
    SanitizeFixesExactlyTheIllegal(name);
    SanitizeFixesExactlyTheIllegal(Sanitize(name));
  }

  // ---- collision suffixes ----

  predicate IsDigit(c: char) {
    '0' <= c <= '9'
  }

  function Decimal(n: nat): (r: string)
    ensures r != "" && forall c :: c in r ==> IsDigit(c)
  {
    var digit := ['0' + (n % 10) as char];
    if n < 10 then digit else Decimal(n / 10) + digit
  }

  function DecimalValue(s: string): int {
    if s == "" then 0 else 10 * DecimalValue(s[..|s| - 1]) + (s[|s| - 1] as int - '0' as int)
  }

  /** A decimal suffix can be read back, so different numbers never look alike. */
  lemma {:induction false} DecimalReadsBack(n: nat)
    ensures DecimalValue(Decimal(n)) == n
  {
    var r := Decimal(n);
    if n < 10 {
      assert r[..|r| - 1] == "";
    } else {
      DecimalReadsBack(n / 10);
      assert r[..|r| - 1] == Decimal(n / 10);
    }
  }

  lemma {:induction false} DecimalIsUpper(n: nat)
    ensures Uppercase(Decimal(n)) == Decimal(n)
  {
    var d := Decimal(n);
    forall i | 0 <= i < |d| ensures UpperChar(d[i]) == d[i] {
      assert d[i] in d;
    }
  }

  /** The names tried in turn: `base`, `base_2`, `base_3`, ... */
  function Candidate(base: string, k: nat): string {
    if k == 0 then base else base + "_" + Decimal(k + 1)
  }

  lemma {:induction false} UpperCandidate(base: string, k: nat)
    ensures Uppercase(Candidate(base, k)) == if k == 0 then Uppercase(base) else Uppercase(base) + "_" + Decimal(k + 1)
  {
    hide Decimal;
    if k > 0 {
      DecimalIsUpper(k + 1);
      assert Uppercase("_") == "_";
    }
  }

  lemma CandidatesDistinct(base: string, i: nat, j: nat)
    requires i < j
    ensures Uppercase(Candidate(base, i)) != Uppercase(Candidate(base, j))
  {
    hide Decimal, DecimalValue, Candidate, Uppercase;
    UpperCandidate(base, i);
    UpperCandidate(base, j);
    DecimalReadsBack(i + 1);
    DecimalReadsBack(j + 1);
    var prefix := Uppercase(base) + "_";
    assert (prefix + Decimal(j + 1))[|prefix|..] == Decimal(j + 1);
    assert (prefix + Decimal(i + 1))[|prefix|..] == Decimal(i + 1);
    assert |prefix| == |Uppercase(base)| + 1;
  }

  ghost predicate AllUsed(base: string, used: set<string>, k: nat) {
    forall j :: 0 <= j < k ==> Uppercase(Candidate(base, j)) in used
  }

  /** `k` different candidates cannot all be used up by fewer than `k` names. */
  lemma {:induction false} Pigeonhole(base: string, used: set<string>, k: nat)
    requires AllUsed(base, used, k)
    ensures k <= |used|
  {
    hide Candidate, Uppercase;
    if k > 0 {
      var last := Uppercase(Candidate(base, k - 1));
      forall j | 0 <= j < k - 1 ensures Uppercase(Candidate(base, j)) in used - {last} {
        CandidatesDistinct(base, j, k - 1);
      }
      Pigeonhole(base, used - {last}, k - 1);
    }
  }

  /** The first candidate from `k` on whose upper-case form is free. */
  ghost function FirstFree(base: string, used: set<string>, k: nat): (r: nat)
    requires AllUsed(base, used, k)
    ensures k <= r <= |used| && AllUsed(base, used, r) && Uppercase(Candidate(base, r)) !in used
    decreases |used| + 1 - k
  {
    Pigeonhole(base, used, k);
    if Uppercase(Candidate(base, k)) in used then
      (assert AllUsed(base, used, k + 1); Pigeonhole(base, used, k + 1); FirstFree(base, used, k + 1))
    else k
  }

  ghost function Alias(name: string, used: set<string>): (r: string)
    ensures Uppercase(r) !in used
  {
    Candidate(Sanitize(name), FirstFree(Sanitize(name), used, 0))
  }

  lemma {:induction false} FirstFreeIs(base: string, used: set<string>, k: nat, r: nat)
    requires k <= r && AllUsed(base, used, r) && Uppercase(Candidate(base, r)) !in used
    ensures AllUsed(base, used, k) && FirstFree(base, used, k) == r
    decreases r - k
  {
    hide Candidate, Uppercase;
    if k < r {
      FirstFreeIs(base, used, k + 1, r);
    }
  }

  /**
   * The suffix loop: it ends after at most `|used|` turns, with its counter at most `|used| + 2`,
   * and claims the upper-case form of the alias.
   */
  method ClaimAlias(name: string, used: set<string>) returns (visible: string, claimed: set<string>)
    ensures visible == Alias(name, used) && claimed == used + {Uppercase(visible)}
  {
    hide Candidate, Uppercase, Sanitize, Decimal;
    visible := SanitizeHostFilename(name);
    var base := visible;
    var suffix: nat := 2;
    ghost var k: nat := 0;
    FirstCandidate(base);
    var key := UppercaseAscii(visible);
    Pigeonhole(base, used, 0);
    while key in used
      invariant key == Uppercase(visible)
      invariant visible == Candidate(base, k) && suffix == k + 2 <= |used| + 2
      invariant AllUsed(base, used, k)
      decreases |used| + 1 - k
    {
      assert AllUsed(base, used, k + 1);
      Pigeonhole(base, used, k + 1);
      NextCandidate(base, k + 1);
      visible := base + "_" + Decimal(suffix);
      suffix := suffix + 1;
      k := k + 1;
      key := UppercaseAscii(visible);
    }
    FirstFreeIs(base, used, 0, k);
    claimed := used + {key};
  }

  lemma FirstCandidate(base: string)
    ensures Candidate(base, 0) == base
  {
  }

  lemma {:induction false} NextCandidate(base: string, k: nat)
    requires k > 0
    ensures Candidate(base, k) == base + "_" + Decimal(k + 1)
  {
  }

  lemma {:induction false} StemWhole(s: string)
    requires '.' !in s
    ensures Stem(s) == s
  {
    if s != "" {
      StemWhole(s[1..]);
    }
  }

  lemma {:induction false} StemOfAppend(a: string, b: string)
    requires '.' !in b
    ensures Stem(a + b) == if '.' in a then Stem(a) else a + b
  {
    if a == "" {
      assert a + b == b;
      StemWhole(b);
    } else {
      assert (a + b)[1..] == a[1..] + b;
      assert a == [a[0]] + a[1..];
      StemOfAppend(a[1..], b);
    }
  }

  lemma {:induction false} SuffixPlain(k: nat)
    ensures var tail := "_" + Decimal(k);
      |tail| > 1 && tail[0] == '_' && forall c :: c in tail ==> !IllegalChar(c) && c != '.' && c != ' '
  {
    hide Decimal;
  }

  lemma SuffixNotReserved(base: string, tail: string)
    requires !Reserved(base) && |tail| > 0 && tail[0] == '_' && '.' !in tail
    ensures !Reserved(base + tail)
  {
    hide Reserved, Stem;
    StemOfAppend(base, tail);
    if '.' in base {
      SameStem(base, base + tail);
    } else {
      assert (base + tail)[|base|] == '_';
      UnderscoreIsFree(base + tail);
    }
  }

  /** A suffix keeps a legal name legal. */
  lemma CandidateLegal(base: string, k: nat)
    requires Legal(base)
    ensures Legal(Candidate(base, k))
  {
    hide Decimal, Reserved, IllegalChar;
    if k > 0 {
      SuffixPlain(k + 1);
      var tail := "_" + Decimal(k + 1);
      assert base + "_" + Decimal(k + 1) == base + tail;
      SuffixNotReserved(base, tail);
      assert tail[|tail| - 1] in tail;
    }
  }

  lemma {:induction false} SameStem(a: string, b: string)
    requires Stem(a) == Stem(b)
    ensures Reserved(a) == Reserved(b)
  {
  }

  // ---- the aliases of a directory ----

  function UpperSet(names: seq<string>): set<string> {
    set i | 0 <= i < |names| :: Uppercase(names[i])
  }

  /** Every name's alias, each chosen after those before it. */
  ghost function Aliases(names: seq<string>): (r: seq<string>)
    ensures |r| == |names|
  {
    if names == [] then []
    else
      var before := Aliases(names[..|names| - 1]);
      before + [Alias(names[|names| - 1], UpperSet(before))]
  }

  lemma UpperSetSnoc(names: seq<string>, name: string)
    ensures UpperSet(names + [name]) == UpperSet(names) + {Uppercase(name)}
  {
    hide Uppercase;
    var all := names + [name];
    assert all[|names|] == name;
    assert forall i :: 0 <= i < |names| ==> all[i] == names[i];
  }

  lemma {:induction false} UpperSetSize(names: seq<string>)
    ensures |UpperSet(names)| <= |names|
  {
    hide Uppercase;
    if names != [] {
      var front := names[..|names| - 1];
      UpperSetSize(front);
      UpperSetSnoc(front, names[|names| - 1]);
      assert names == front + [names[|names| - 1]];
    }
  }

  lemma {:induction false} AliasesSnoc(names: seq<string>, name: string)
    ensures Aliases(names + [name]) == Aliases(names) + [Alias(name, UpperSet(Aliases(names)))]
  {
    assert (names + [name])[..|names|] == names;
  }

  /** An alias does not depend on the names after it. */
  lemma {:induction false} AliasesPrefix(names: seq<string>, k: nat)
    requires k <= |names|
    ensures Aliases(names)[..k] == Aliases(names[..k])
  {
    hide Alias, UpperSet;
    if k == |names| {
      assert names[..k] == names;
    } else {
      var front := names[..|names| - 1];
      AliasesPrefix(front, k);
      assert front[..k] == names[..k];
    }
  }

  lemma AliasLegal(name: string, used: set<string>)
    ensures Legal(Alias(name, used))
  {
    hide Legal, Candidate, Sanitize;
    SanitizeFixesExactlyTheIllegal(name);
    CandidateLegal(Sanitize(name), FirstFree(Sanitize(name), used, 0));
  }

  /** Aliases are legal host names, no two of which differ only in case. */
  lemma {:induction false} AliasesLegalAndDistinct(names: seq<string>)
    ensures forall i :: 0 <= i < |names| ==> Legal(Aliases(names)[i])
    ensures forall i, j :: 0 <= i < j < |names| ==> Uppercase(Aliases(names)[i]) != Uppercase(Aliases(names)[j])
  {
    hide Legal, Uppercase, Alias;
    if names != [] {
      var front := names[..|names| - 1];
      AliasesLegalAndDistinct(front);
      AliasLegal(names[|names| - 1], UpperSet(Aliases(front)));
    }
  }

  /** A name whose sanitised form nobody before it took keeps that form. */
  lemma AliasKeepsFreeName(name: string, used: set<string>)
    ensures Alias(name, used) == Sanitize(name) <==> Uppercase(Sanitize(name)) !in used
  {
    hide Uppercase, Sanitize, Decimal;
    var base := Sanitize(name);
    if Uppercase(base) !in used {
      FirstFreeIs(base, used, 0, 0);
    }
  }

  /** Up to case, the sanitised form of a name is its own alias or that of a name before it. */
  lemma {:induction false} SanitizedIsTaken(names: seq<string>, j: nat)
    requires j < |names|
    ensures exists k :: 0 <= k <= j && Uppercase(Aliases(names)[k]) == Uppercase(Sanitize(names[j]))
  {
    hide Uppercase, Sanitize, Alias, Aliases, UpperSet;
    var front, word := names[..j], Sanitize(names[j]);
    assert names[..j + 1] == front + [names[j]];
    AliasesSnoc(front, names[j]);
    AliasesPrefix(names, j + 1);
    var aliases := Aliases(front);
    assert forall k :: 0 <= k < j ==> Aliases(names)[k] == aliases[k];
    AliasKeepsFreeName(names[j], UpperSet(aliases));
    if Uppercase(word) in UpperSet(aliases) {
      UpperSetHolds(aliases, Uppercase(word));
    } else {
      assert Aliases(names)[j] == word;
    }
  }

  lemma {:induction false} UpperSetHolds(names: seq<string>, upper: string)
    requires upper in UpperSet(names)
    ensures exists k :: 0 <= k < |names| && Uppercase(names[k]) == upper
  {
    hide Uppercase;
  }

  // ---- what these names are, spelled out ----

  /** Folding case exchanges exactly the 26 small letters for the capital ones. */
  lemma FoldsTheAlphabet(c: char)
    ensures var small, capital := "abcdefghijklmnopqrstuvwxyz", "ABCDEFGHIJKLMNOPQRSTUVWXYZ";
      && (forall i :: 0 <= i < 26 ==> UpperChar(small[i]) == capital[i])
      && (c !in small ==> UpperChar(c) == c)
  {
    var small, capital := "abcdefghijklmnopqrstuvwxyz", "ABCDEFGHIJKLMNOPQRSTUVWXYZ";
    forall i | 0 <= i < 26 ensures small[i] as int == 97 + i && capital[i] as int == 65 + i {
    }
    if 'a' <= c <= 'z' {
      var i := c as int - 97;
      assert small[i] == c;
    }
  }

  function DeviceNames(): set<string> {
    {"CON", "PRN", "AUX", "NUL"}
    + (set d | d in "123456789" :: "COM" + [d]) + (set d | d in "123456789" :: "LPT" + [d])
  }

  /** A name starts with a word when the word ends it or a dot follows, in any case. */
  predicate StartsWithWord(name: string, word: string) {
    && |word| <= |name| && Uppercase(name[..|word|]) == word
    && (|word| == |name| || name[|word|] == '.')
  }

  lemma Numbered(three: string, d: char, stem: string)
    requires |three| == 3
    ensures stem == three + [d] <==> |stem| == 4 && stem[..3] == three && stem[3] == d
  {
    if |stem| == 4 {
      assert stem == stem[..3] + [stem[3]];
    }
    assert (three + [d])[..3] == three;
  }

  lemma NumberedIsListed(three: string, stem: string)
    requires |three| == 3
    ensures stem in (set d | d in "123456789" :: three + [d]) <==>
      |stem| == 4 && stem[..3] == three && '1' <= stem[3] <= '9'
  {
    forall d ensures stem == three + [d] <==> |stem| == 4 && stem[..3] == three && stem[3] == d {
      Numbered(three, d, stem);
    }
    if |stem| == 4 {
      DigitIsListed(stem[3]);
    }
  }

  lemma DeviceStemIsListed(stem: string)
    ensures DeviceStem(stem) <==> stem in DeviceNames()
  {
    NumberedIsListed("COM", stem);
    NumberedIsListed("LPT", stem);
  }

  lemma DigitIsListed(c: char)
    ensures '1' <= c <= '9' <==> c in "123456789"
  {
    var digits := "123456789";
    if '1' <= c <= '9' {
      assert digits[c as int - 49] == c;
    }
  }

  lemma {:induction false} StemIsFirst(name: string, k: nat)
    requires k <= |name| && '.' !in name[..k] && (k == |name| || name[k] == '.')
    ensures Stem(name) == name[..k]
  {
    if k > 0 {
      assert name[0] == name[..k][0];
      assert name[1..][..k - 1] == name[..k][1..];
      StemIsFirst(name[1..], k - 1);
    }
  }

  /** The reserved names are the devices', alone or before a dot, in any case. */
  lemma ReservedNames(name: string)
    ensures Reserved(name) <==> exists word :: word in DeviceNames() && StartsWithWord(name, word)
  {
    hide DeviceStem, DeviceNames;
    var stem := Stem(name);
    DeviceStemIsListed(Uppercase(stem));
    if Reserved(name) {
      assert StartsWithWord(name, Uppercase(stem));
    }
    if word :| word in DeviceNames() && StartsWithWord(name, word) {
      DeviceStemIsListed(word);
      DeviceHasNoDot(word);
      var head := name[..|word|];
      forall i | 0 <= i < |head| ensures head[i] != '.' {
        assert UpperChar(head[i]) == word[i];
      }
      StemIsFirst(name, |word|);
    }
  }

  lemma DeviceHasNoDot(stem: string)
    requires DeviceStem(stem)
    ensures forall i :: 0 <= i < |stem| ==> stem[i] != '.'
  {
    if |stem| == 4 {
      assert stem == stem[..3] + [stem[3]];
    }
  }

  predicate Refused(c: char) {
    c < ' ' || c in "<>:\"/\\|?*"
  }

  /** What the host refuses, and a final dot or space, become underscores; the rest stays. */
  function Softened(name: string): (r: string)
    ensures |r| == |name|
  {
    seq(|name|, i requires 0 <= i < |name| =>
      if Refused(name[i]) || (i == |name| - 1 && name[i] in {'.', ' '}) then '_' else name[i])
  }

  lemma SameRefusals(c: char)
    ensures IllegalChar(c) <==> Refused(c)
  {
    var refused := "<>:\"/\\|?*";
    assert refused == ['<', '>', ':', '"', '/', '\\', '|', '?', '*'];
  }

  lemma DotsOnly(name: string)
    requires name !in {"", ".", ".."}
    ensures Mapped(name) !in {"", ".", ".."}
  {
    assert |name| == 1 && name[0] == '.' ==> name == ".";
    assert |name| == 2 && name[0] == '.' && name[1] == '.' ==> name == "..";
  }

  lemma TrimmedIsSoftened(name: string)
    requires name !in {"", ".", ".."}
    ensures Trimmed(name) == Softened(name)
  {
    hide IllegalChar, Refused;
    DotsOnly(name);
    var n, mapped, trimmed := |name| - 1, Mapped(name), Trimmed(name);
    forall i | 0 <= i <= n ensures trimmed[i] == Softened(name)[i] {
      SameRefusals(name[i]);
    }
  }

  /**
   * A name that is not empty or a dot component is changed character by character, and gets one
   * underscore in front exactly when what results is reserved; the three others become one.
   */
  lemma SanitizeCharwise(name: string)
    ensures name in {"", ".", ".."} ==> Sanitize(name) == "_"
    ensures name !in {"", ".", ".."} ==>
      Sanitize(name) == (if Reserved(Softened(name)) then "_" else "") + Softened(name)
  {
    hide Reserved, Softened;
    if name in {"", ".", ".."} {
      UnderscoreFirst("");
      assert Mapped(name) == name;
      assert "_" + "" == "_" == Trimmed(name);
    } else {
      TrimmedIsSoftened(name);
    }
  }

  /** The next of some numbered names gets the next number. */
  lemma {:induction false} NextTwin(base: string, taken: seq<string>)
    requires forall i :: 0 <= i < |taken| ==> taken[i] == Candidate(base, i)
    ensures AllUsed(base, UpperSet(taken), 0) && FirstFree(base, UpperSet(taken), 0) == |taken|
  {
    hide Uppercase, Candidate;
    var used, k := UpperSet(taken), |taken|;
    forall i | 0 <= i < k ensures Uppercase(Candidate(base, i)) in used {
      assert taken[i] == Candidate(base, i);
    }
    if Uppercase(Candidate(base, k)) in used {
      UpperSetHolds(taken, Uppercase(Candidate(base, k)));
      var i :| 0 <= i < k && Uppercase(taken[i]) == Uppercase(Candidate(base, k));
      CandidatesDistinct(base, i, k);
    }
    FirstFreeIs(base, used, 0, k);
  }

  /** Names that sanitise alike are numbered from 2 on, in order. */
  lemma {:induction false} TwinsAreNumbered(names: seq<string>, base: string)
    requires forall i :: 0 <= i < |names| ==> Sanitize(names[i]) == base
    ensures forall i :: 0 <= i < |names| ==>
      Aliases(names)[i] == if i == 0 then base else base + "_" + Decimal(i + 1)
  {
    hide Uppercase, Sanitize, Decimal, UpperSet, FirstFree;
    if names != [] {
      var front := names[..|names| - 1];
      TwinsAreNumbered(front, base);
      NextTwin(base, Aliases(front));
      assert Aliases(names) == Aliases(front) + [Candidate(base, |front|)];
    }
  }
}
