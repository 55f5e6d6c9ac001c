/**
 * The identifier generator of the cashier service: the `YYNNNNN` matricule computed by scanning
 * the institutional e-mails of the users already in the store, and the name-based institutional
 * e-mail.
 */
module Identity {
  import opened Text
  import opened Wrappers
  import opened Store

  /** The institutional domain every generated address ends with. */
  const Domain: string := "@university.edu"

  /** The last two decimal digits of the year, as `new Date().getFullYear().toString().slice(-2)`
      gives them (one digit for a year below 10); `YearPrefixIsLastTwoDigits` ties the two forms. */
  function YearPrefix(year: nat): (yy: string)
    ensures |yy| <= 2 && AllDigits(yy)
    ensures year >= 10 ==> |yy| == 2
  {
    if year < 10 then [DigitChar(year)] else [DigitChar(year / 10 % 10), DigitChar(year % 10)]
  }

  /** The prefix is the decimal rendering of the year cut to its last two characters. */
  lemma {:induction false} YearPrefixIsLastTwoDigits(year: nat)
    ensures YearPrefix(year) == SliceLast(NatToString(year), 2)
  {
    var s := NatToString(year);
    if year >= 10 {
      var h := NatToString(year / 10);
      assert s == h + [DigitChar(year % 10)];
      NatToStringLastDigit(year / 10);
      assert s[|s| - 2..] == [h[|h| - 1], DigitChar(year % 10)];
    }
  }

  /** `email.split('@')[0]`. */
  function LocalPart(email: string): (p: string)
    ensures '@' !in p && StartsWith(email, p)
  {
    SplitFirst(email, '@');
    Split(email, '@')[0]
  }

  /** `/^\d{2}\d{5}$/` (`\d` is ASCII 0-9). */
  predicate IsMatriculeShaped(p: string) {
    |p| == 7 && AllDigits(p)
  }

  /** `parseInt(p.slice(2), 10)` on a matricule-shaped local part. */
  function SequenceOf(p: string): nat
    requires IsMatriculeShaped(p)
  {
    DigitsValue(p[2..])
  }

  /** The scan counts an address when it contains the domain (the query's `contains` filter), its
      local part is matricule-shaped and its first two characters are the year prefix. */
  predicate Counted(email: string, yy: string) {
    Includes(email, Domain) && IsMatriculeShaped(LocalPart(email)) && LocalPart(email)[..2] == yy
  }

  /** What one address contributes to the running maximum. */
  function Contribution(email: string, yy: string): nat {
    if Counted(email, yy) then SequenceOf(LocalPart(email)) else 0
  }

  function Max(a: nat, b: nat): nat { if a >= b then a else b }

  /** The largest sequence number among the counted addresses, or 0 when there is none. */
  function MaxSequence(users: seq<User>, yy: string): nat {
    if users == [] then 0
    else Max(MaxSequence(users[..|users| - 1], yy), Contribution(users[|users| - 1].institutionalEmail, yy))
  }

  /** One more address of the scan. */
  lemma {:induction false} MaxSequenceStep(users: seq<User>, i: nat, yy: string)
    requires i < |users|
    ensures MaxSequence(users[..i + 1], yy) == Max(MaxSequence(users[..i], yy), Contribution(users[i].institutionalEmail, yy))
  {
    var p := users[..i + 1];
    assert p[..|p| - 1] == users[..i];
    assert p[|p| - 1] == users[i];
  }

  /** The maximum bounds every counted address of the year. */
  lemma {:induction false} MaxSequenceBounds(users: seq<User>, yy: string)
    ensures forall i :: 0 <= i < |users| && Counted(users[i].institutionalEmail, yy) ==> SequenceOf(LocalPart(users[i].institutionalEmail)) <= MaxSequence(users, yy)
  {
    if users != [] {
      var init := users[..|users| - 1];
      MaxSequenceBounds(init, yy);
      assert forall i :: 0 <= i < |init| ==> init[i] == users[i];
    }
  }

  /** The maximum is 0 or the sequence number of some counted address of the year. */
  lemma {:induction false} MaxSequenceAttained(users: seq<User>, yy: string)
    ensures var m := MaxSequence(users, yy);
      m == 0 || exists i :: 0 <= i < |users| && Counted(users[i].institutionalEmail, yy) && SequenceOf(LocalPart(users[i].institutionalEmail)) == m
  {
    if users != [] {
      var init := users[..|users| - 1];
      MaxSequenceAttained(init, yy);
      if MaxSequence(users, yy) != Contribution(users[|users| - 1].institutionalEmail, yy) {
        var m := MaxSequence(init, yy);
        if m != 0 {
          var i :| 0 <= i < |init| && Counted(init[i].institutionalEmail, yy) && SequenceOf(LocalPart(init[i].institutionalEmail)) == m;
          assert init[i] == users[i];
        }
      }
    }
  }

  /** `${yy}${n.toString().padStart(5, '0')}`. */
  function FormatMatricule(yy: string, n: nat): string {
    yy + PadStart(NatToString(n), 5, '0')
  }

  /** The matricule `generateMatricule` hands out for the current table of users. */
  function NextMatricule(users: seq<User>, year: nat): string {
    FormatMatricule(YearPrefix(year), MaxSequence(users, YearPrefix(year)) + 1)
  }

  /** The matricule depends on the users only through the maximum sequence of the year. */
  lemma {:induction false} SameMaximumSameMatricule(users: seq<User>, users': seq<User>, year: nat)
    requires MaxSequence(users, YearPrefix(year)) == MaxSequence(users', YearPrefix(year))
    ensures NextMatricule(users, year) == NextMatricule(users', year)
  {
  }

  /** The first matricule of a year ends in `00001`. */
  lemma {:induction false} FirstOfYear(yy: string)
    ensures FormatMatricule(yy, 1) == yy + "00001"
  {
    assert NatToString(1) == "1";
    assert PadStart("1", 5, '0') == Repeat('0', 4) + "1";
    assert Repeat('0', 4) == "0000";
  }

  /** `generateMatricule`: one pass over the stored addresses keeping the largest sequence number
      of the current year, then that number plus one after the year prefix. */
  method GenerateMatricule(users: seq<User>, year: nat) returns (matricule: string)
    ensures matricule == NextMatricule(users, year)
    ensures StartsWith(matricule, YearPrefix(year))
  {
    var yy := YearPrefix(year);
    var maxSequence := 0;
    for i := 0 to |users|
      invariant maxSequence == MaxSequence(users[..i], yy)
    {
      MaxSequenceStep(users, i, yy);
      var emailPrefix := LocalPart(users[i].institutionalEmail);
      if Includes(users[i].institutionalEmail, Domain) && IsMatriculeShaped(emailPrefix) {
        var yearPart := emailPrefix[..2];
        if yearPart == yy {
          var sequence := DigitsValue(emailPrefix[2..]);
          if sequence > maxSequence {
            maxSequence := sequence;
          }
        }
      }
    }
    assert users[..|users|] == users;
    var nextSequence := maxSequence + 1;
    matricule := yy + PadStart(NatToString(nextSequence), 5, '0');
  }

  /** The new sequence number exceeds that of every address of the same year, so the new
      matricule differs from every matricule-shaped local part of that year in the store. */
  lemma {:induction false} NextSequenceIsFresh(users: seq<User>, yy: string, i: nat)
    requires i < |users| && Counted(users[i].institutionalEmail, yy)
    ensures SequenceOf(LocalPart(users[i].institutionalEmail)) < MaxSequence(users, yy) + 1
    ensures LocalPart(users[i].institutionalEmail) != FormatMatricule(yy, MaxSequence(users, yy) + 1)
  {
    var p := LocalPart(users[i].institutionalEmail);
    assert SequenceOf(p) <= MaxSequence(users, yy) by {
      MaxSequenceBounds(users, yy);
    }
    LargerSequenceDiffers(p, yy, MaxSequence(users, yy) + 1);
  }

  /** A matricule-shaped local part of the year differs from the matricule formatted from any
      larger sequence number, below 100000 or not. */
  lemma {:induction false} LargerSequenceDiffers(p: string, yy: string, next: nat)
    requires IsMatriculeShaped(p) && p[..2] == yy && SequenceOf(p) < next
    ensures p != FormatMatricule(yy, next)
  {
    assert |yy| == 2 && AllDigits(yy) by {
      assert forall j :: 0 <= j < 2 ==> yy[j] == p[j];
    }
    if next <= 99999 {
      MatriculeRoundTrip(yy, next);
    } else {
      MatriculeOverflow(yy, next);
    }
  }

  /** A matricule with sequence number in 1..99999 has seven digits, the year first, and the
      scan reads the same sequence number back from it. */
  lemma {:induction false} MatriculeRoundTrip(yy: string, n: nat)
    requires |yy| == 2 && AllDigits(yy) && n <= 99999
    ensures var m := FormatMatricule(yy, n);
      IsMatriculeShaped(m) && m[..2] == yy && SequenceOf(m) == n
  {
    var digits := NatToString(n);
    NatToStringLength(n, 5, 100000);
    var padded := PadStart(digits, 5, '0');
    DigitsValueLeadingZeros(5 - |digits|, digits);
    DigitsValueOfNatToString(n);
    var m := FormatMatricule(yy, n);
    assert m[2..] == padded;
    assert m[..2] == yy;
  }

  /** `padStart` does not truncate: from sequence number 100000 on, the matricule is longer than
      seven characters and is no longer matricule-shaped. */
  lemma {:induction false} MatriculeOverflow(yy: string, n: nat)
    requires |yy| == 2 && n >= 100000
    ensures |FormatMatricule(yy, n)| >= 8 && !IsMatriculeShaped(FormatMatricule(yy, n))
    ensures n <= 999999 ==> |FormatMatricule(yy, n)| == 8
  {
    assert Pow10(5) == 100000;
    NatToStringLengthBelow(n, 5);
    if n <= 999999 {
      assert Pow10(6) == 1000000;
      NatToStringLength(n, 6, 1000000);
    }
  }

  /** The maximum over two lists of addresses is the larger of the two maxima. */
  lemma {:induction false} MaxSequenceAppend(a: seq<User>, b: seq<User>, yy: string)
    ensures MaxSequence(a + b, yy) == Max(MaxSequence(a, yy), MaxSequence(b, yy))
    decreases |b|
  {
    if b == [] {
      assert a + b == a;
    } else {
      var b' := b[..|b| - 1];
      assert (a + b)[..|a + b| - 1] == a + b';
      assert (a + b)[|a + b| - 1] == b[|b| - 1];
      MaxSequenceAppend(a, b', yy);
    }
  }

  // ---------------------------------------------------------------------------------------------
  // Name-based institutional e-mail

  /** `fullName.trim().toLowerCase().split(' ')`. */
  function NameTokens(fullName: string): (parts: seq<string>)
    ensures |parts| >= 1
  {
    Split(ToLower(Trim(fullName)), ' ')
  }

  /** The first token, or 'student' when it is empty before any stripping. */
  function FirstToken(fullName: string): string {
    var parts := NameTokens(fullName);
    if parts[0] != "" then parts[0] else "student"
  }

  /** The last token, or 'user' when it is empty before any stripping. */
  function LastToken(fullName: string): string {
    var parts := NameTokens(fullName);
    if parts[|parts| - 1] != "" then parts[|parts| - 1] else "user"
  }

  /** `cleanFirst.cleanLast`: the letters a-z of the first and last tokens around a dot. */
  function BaseLocalPart(fullName: string): (base: string)
    ensures '@' !in base && |KeepAsciiLower(FirstToken(fullName))| < |base|
    ensures base[|KeepAsciiLower(FirstToken(fullName))|] == '.'
  {
    var first, last := KeepAsciiLower(FirstToken(fullName)), KeepAsciiLower(LastToken(fullName));
    DottedPair(first, last);
    first + "." + last
  }

  lemma {:induction false} DottedPair(a: string, b: string)
    requires forall i :: 0 <= i < |a| ==> IsAsciiLower(a[i])
    requires forall i :: 0 <= i < |b| ==> IsAsciiLower(b[i])
    ensures '@' !in a + "." + b && (a + "." + b)[|a|] == '.'
  {
    var s := a + "." + b;
    assert forall i :: 0 <= i < |s| ==> s[i] == '.' || IsAsciiLower(s[i]);
  }

  /** `generateEmailFromName(fullName, suffix)`; an empty `suffix` is JavaScript's missing one. */
  function EmailFromName(fullName: string, suffix: string): (email: string)
    ensures email == BaseLocalPart(fullName) + suffix + Domain
  {
    var base := BaseLocalPart(fullName);
    var local := if suffix != "" then base + suffix else base;
    local + Domain
  }

  /** No name-based address is ever matricule-shaped: its local part holds the dot between the
      two tokens. So the matricule scan never counts a user the cashier path created. */
  lemma {:induction false} NameEmailNeverCounted(fullName: string, suffix: string, yy: string)
    ensures !Counted(EmailFromName(fullName, suffix), yy)
  {
    var base := BaseLocalPart(fullName);
    var dot := |KeepAsciiLower(FirstToken(fullName))|;
    Text.ConcatAssoc(base, suffix, Domain);
    LocalPartKeepsPrefix(base, suffix + Domain);
    var p := LocalPart(EmailFromName(fullName, suffix));
    assert p[dot] == '.';
  }

  /** The local part of an address starts with any `@`-free prefix of it. */
  lemma {:induction false} LocalPartKeepsPrefix(base: string, rest: string)
    requires '@' !in base
    ensures StartsWith(LocalPart(base + rest), base)
  {
    var s := base + rest;
    SplitFirst(s, '@');
    match IndexOf(s, '@')
    case None =>
      assert s[..|base|] == base;
    case Some(k) =>
      assert k >= |base|;
      assert s[..k][..|base|] == base;
  }

  /** Adding a name-based address to the store leaves the next matricule of every year as it was. */
  lemma {:induction false} NameEmailKeepsMaxSequence(users: seq<User>, u: User, fullName: string, suffix: string, yy: string)
    requires u.institutionalEmail == EmailFromName(fullName, suffix)
    ensures MaxSequence(users + [u], yy) == MaxSequence(users, yy)
  {
    NameEmailNeverCounted(fullName, suffix, yy);
    assert (users + [u])[..|users|] == users;
  }

  /** A non-empty suffix always changes the address: the disambiguated address differs from the
      base address it replaces. */
  lemma {:induction false} SuffixDisambiguates(fullName: string, suffix: string)
    requires suffix != ""
    ensures EmailFromName(fullName, suffix) != EmailFromName(fullName, "")
  {
    assert |EmailFromName(fullName, suffix)| == |EmailFromName(fullName, "")| + |suffix|;
  }

  /** Two lower-case words give `first.last@university.edu`. */
  lemma {:induction false} TwoWordNameEmail(first: string, last: string)
    requires first != [] && last != []
    requires forall i :: 0 <= i < |first| ==> IsAsciiLower(first[i])
    requires forall i :: 0 <= i < |last| ==> IsAsciiLower(last[i])
    ensures EmailFromName(first + " " + last, "") == first + "." + last + Domain
  {
    TwoTokens(first, last);
    assert KeepAsciiLower(first) == first && KeepAsciiLower(last) == last;
  }

  /** The tokens of `first last` when both words are free of spaces and of upper case. */
  lemma {:induction false} TwoTokens(first: string, last: string)
    requires first != [] && last != []
    requires forall i :: 0 <= i < |first| ==> IsAsciiLower(first[i]) || IsAsciiDigit(first[i])
    requires forall i :: 0 <= i < |last| ==> IsAsciiLower(last[i]) || IsAsciiDigit(last[i])
    ensures NameTokens(first + " " + last) == [first, last]
    ensures FirstToken(first + " " + last) == first && LastToken(first + " " + last) == last
  {
    var name := first + " " + last;
    PlainWords(first, last);
    PlainNameTokens(name);
    SplitTwoWords(first, last);
    TokensOfTwo(name, first, last);
  }

  lemma {:induction false} PlainWords(first: string, last: string)
    requires forall i :: 0 <= i < |first| ==> IsAsciiLower(first[i]) || IsAsciiDigit(first[i])
    requires forall i :: 0 <= i < |last| ==> IsAsciiLower(last[i]) || IsAsciiDigit(last[i])
    ensures var name := first + " " + last;
      forall i :: 0 <= i < |name| ==> IsAsciiLower(name[i]) || IsAsciiDigit(name[i]) || name[i] == ' '
  {
  }

  lemma {:induction false} TokensOfTwo(name: string, first: string, last: string)
    requires first != [] && last != [] && NameTokens(name) == [first, last]
    ensures FirstToken(name) == first && LastToken(name) == last
  {
  }

  lemma {:induction false} SplitTwoWords(first: string, last: string)
    requires ' ' !in first && ' ' !in last
    ensures Split(first + " " + last, ' ') == [first, last]
  {
    var name := first + " " + last;
    assert name[..|first|] == first && name[|first|] == ' ';
    assert IndexOf(name, ' ') == Some(|first|);
    assert name[|first| + 1..] == last;
  }

  /** A one-word name repeats its word: `john.john@university.edu`. */
  lemma {:induction false} OneWordNameEmail(word: string)
    requires word != [] && forall i :: 0 <= i < |word| ==> IsAsciiLower(word[i])
    ensures EmailFromName(word, "") == word + "." + word + Domain
  {
    PlainNameTokens(word);
  }

  /** The placeholders replace only tokens that are empty before stripping: two tokens of digits
      give the address ".@university.edu". */
  lemma {:induction false} DigitNameEmail(first: string, last: string)
    requires first != [] && last != [] && AllDigits(first) && AllDigits(last)
    ensures EmailFromName(first + " " + last, "") == "." + Domain
  {
    TwoTokens(first, last);
    NoLetters(first);
    NoLetters(last);
    assert BaseLocalPart(first + " " + last) == ".";
    DotAddress();
  }

  lemma {:induction false} DotAddress()
    ensures "." + "" + Domain == "." + Domain
  {
  }

  /** A blank name falls back to both placeholders. */
  lemma {:induction false} BlankNameEmail(fullName: string)
    requires forall i :: 0 <= i < |fullName| ==> IsJsSpace(fullName[i])
    ensures EmailFromName(fullName, "") == "student.user" + Domain
  {
    BlankTokens(fullName);
    assert FirstToken(fullName) == "student" && LastToken(fullName) == "user";
    LettersKept("student");
    LettersKept("user");
    PlaceholderAddress();
  }

  lemma {:induction false} BlankTokens(fullName: string)
    requires forall i :: 0 <= i < |fullName| ==> IsJsSpace(fullName[i])
    ensures NameTokens(fullName) == [""]
  {
    TrimEmptyIffBlank(fullName);
    var e: string := [];
    assert Trim(fullName) == e;
    assert ToLower(e) == e;
    assert IndexOf(e, ' ') == None;
  }

  lemma {:induction false} PlaceholderAddress()
    ensures "student" + "." + "user" + "" + Domain == "student.user" + Domain
  {
  }

  lemma {:induction false} LettersKept(s: string)
    requires s == "student" || s == "user"
    ensures KeepAsciiLower(s) == s
  {
    assert forall i :: 0 <= i < |s| ==> IsAsciiLower(s[i]);
  }

  lemma {:induction false} NoLetters(s: string)
    requires AllDigits(s)
    ensures KeepAsciiLower(s) == ""
  {
    if s != [] {
      NoLetters(s[1..]);
    }
  }

  /** A name made of lower-case letters, digits and single inner spaces is its own trimmed,
      lower-cased form. */
  lemma {:induction false} PlainNameTokens(name: string)
    requires name != [] && name[0] != ' ' && name[|name| - 1] != ' '
    requires forall i :: 0 <= i < |name| ==> IsAsciiLower(name[i]) || IsAsciiDigit(name[i]) || name[i] == ' '
    ensures NameTokens(name) == Split(name, ' ')
  {
    assert !IsJsSpace(name[0]) && !IsJsSpace(name[|name| - 1]);
    assert TrimStart(name) == name;
    assert TrimEnd(name) == name;
    ToLowerOfLower(name);
  }
}
