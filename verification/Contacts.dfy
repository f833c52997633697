/** Contact names and the cleaner every write goes through
    (`rust/chain/src/contact_names.rs`). `Sanitized` says what a cleaned name is, by
    its words; `CleanExactly` says which names cleaning leaves alone. */
module Contacts {
  import opened Bytes

  const MAX_CONTACT_NAME: nat := 40

  /** The Unicode White_Space property, as `char::is_whitespace` reads it. */
  predicate IsWhitespace(c: char) {
    var n := c as int;
    || 0x09 <= n <= 0x0D || n == 0x20 || n == 0x85 || n == 0xA0 || n == 0x1680 || 0x2000 <= n <= 0x200A
    || n == 0x2028 || n == 0x2029 || n == 0x202F || n == 0x205F || n == 0x3000
  }

  /** General category Cc. */
  predicate IsControl(c: char) {
    var n := c as int;
    n <= 0x1F || 0x7F <= n <= 0x9F
  }

  predicate IsDeceptiveFormat(c: char) {
    var n := c as int;
    || n == 0xAD || 0x200B <= n <= 0x200F || 0x202A <= n <= 0x202E
    || 0x2060 <= n <= 0x2064 || 0x2066 <= n <= 0x2069 || n == 0xFEFF
  }

  /** A character that is kept, and that parts no words. */
  predicate Shown(c: char) {
    !IsWhitespace(c) && !IsControl(c) && !IsDeceptiveFormat(c)
  }

  // ---- what a cleaned name is ----

  /** The words read so far, and whether the last one may still grow. */
  datatype Reading = Reading(words: seq<string>, open: bool)

  /** White space ends a word; a dropped character neither ends nor extends one. */
  function Read(name: string): (r: Reading)
    ensures r.open ==> r.words != []
  {
    if name == "" then Reading([], false)
    else
      var r, c := Read(name[..|name| - 1]), name[|name| - 1];
      var n := |r.words|;
      if IsWhitespace(c) then Reading(r.words, false)
      else if !Shown(c) then r
      else if r.open then Reading(r.words[..n - 1] + [r.words[n - 1] + [c]], true)
      else Reading(r.words + [[c]], true)
  }

  function Joined(words: seq<string>): string {
    if words == [] then ""
    else if |words| == 1 then words[0]
    else Joined(words[..|words| - 1]) + " " + words[|words| - 1]
  }

  function TrimEnd(s: string): (r: string)
    ensures r <= s && (r == "" || !IsWhitespace(r[|r| - 1]))
  {
    if s == "" || !IsWhitespace(s[|s| - 1]) then s else TrimEnd(s[..|s| - 1])
  }

  function Upto(s: string, n: nat): string {
    if |s| <= n then s else s[..n]
  }

  /** The name's words with single spaces between, cut at 40 characters, with no
      space left at the cut. */
  function Sanitized(name: string): string {
    TrimEnd(Upto(Joined(Read(name).words), MAX_CONTACT_NAME))
  }

  // ---- the loop ----

  /** What the loop has written after reading this much, if it has not stopped. */
  function Written(r: Reading): string {
    Joined(r.words) + if !r.open && r.words != [] then " " else ""
  }

  method SanitizeName(name: string) returns (clean: string)
    ensures clean == Sanitized(name)
  {
    var out := "";
    var lastWasSpace := true;
    for i := 0 to |name|
      invariant out == Written(Read(name[..i]))
      invariant lastWasSpace == !Read(name[..i]).open
      invariant |Joined(Read(name[..i]).words)| <= MAX_CONTACT_NAME
    {
      var c := name[i];
      OneMoreRead(name, i);
      JoinedIsTidy(Read(name[..i]).words);
      if IsWhitespace(c) {
        if !lastWasSpace {
          out := out + " ";
          lastWasSpace := true;
        }
      } else if !IsControl(c) && !IsDeceptiveFormat(c) {
        if |out| >= MAX_CONTACT_NAME {
          CutHere(name, i);
          clean := TrimEnd(out);
          return;
        }
        out := out + [c];
        lastWasSpace := false;
      }
    }
    assert name[..|name|] == name;
    WholeRead(name);
    clean := TrimEnd(out);
  }

  /** What one more character adds to what is written. */
  lemma OneMoreRead(name: string, i: nat)
    requires i < |name|
    ensures var r, r', c := Read(name[..i]), Read(name[..i + 1]), name[i];
      && (IsWhitespace(c) ==> r' == Reading(r.words, false))
      && (!IsWhitespace(c) && !Shown(c) ==> r' == r)
      && (Shown(c) ==> r'.open && Joined(r'.words) == Written(r) + [c] && Written(r') == Written(r) + [c])
  {
    assert name[..i + 1][..i] == name[..i];
    var r, r', c := Read(name[..i]), Read(name[..i + 1]), name[i];
    if Shown(c) {
      var n := |r.words|;
      if r.open {
        assert r'.words[..n - 1] == r.words[..n - 1];
      } else {
        assert r'.words[..n] == r.words;
      }
    }
  }

  predicate Word(w: string) {
    w != "" && forall i :: 0 <= i < |w| ==> Shown(w[i])
  }

  predicate AllWords(words: seq<string>) {
    forall i :: 0 <= i < |words| ==> Word(words[i])
  }

  lemma {:induction false} ReadsWords(name: string)
    ensures AllWords(Read(name).words)
  {
    if name != "" {
      ReadsWords(name[..|name| - 1]);
    }
  }

  /** No leading or doubled space, and no character but spaces and shown ones. */
  predicate Tidy(s: string) {
    && (s != "" ==> s[0] != ' ')
    && (forall i :: 0 <= i < |s| ==> s[i] == ' ' || Shown(s[i]))
    && (forall i :: 0 < i < |s| && s[i] == ' ' ==> s[i - 1] != ' ')
  }

  predicate EndsShown(s: string) {
    s == "" || Shown(s[|s| - 1])
  }

  lemma {:induction false} JoinedIsTidy(words: seq<string>)
    ensures AllWords(words) ==> Tidy(Joined(words)) && EndsShown(Joined(words)) && (words == [] <==> Joined(words) == "")
  {
    if |words| > 1 && AllWords(words) {
      var front, last := words[..|words| - 1], words[|words| - 1];
      JoinedIsTidy(front);
      TidyJoin(Joined(front), last);
    }
  }

  lemma TidyJoin(a: string, w: string)
    requires Tidy(a) && EndsShown(a) && a != "" && Word(w)
    ensures Tidy(a + " " + w) && EndsShown(a + " " + w)
  {
    var s := a + " " + w;
    assert s[|a|] == ' ' && Shown(a[|a| - 1]);
    forall i | 0 <= i < |s|
      ensures (s[i] == ' ' || Shown(s[i])) && (0 < i && s[i] == ' ' ==> s[i - 1] != ' ')
    {
      if i > |a| {
        assert s[i] == w[i - |a| - 1];
      } else if i < |a| {
        assert s[i] == a[i];
      }
    }
  }

  /** Trimming takes off at most the one space the loop ends in. */
  lemma TrimOne(s: string)
    requires EndsShown(s)
    ensures TrimEnd(s) == s && TrimEnd(s + " ") == s
  {
    assert (s + " ")[..|s|] == s;
  }

  /** What is written of a reading, and its trimming. */
  lemma WrittenTrims(name: string)
    ensures var r := Read(name);
      TrimEnd(Written(r)) == TrimEnd(Joined(r.words)) == Joined(r.words) && |Written(r)| <= |Joined(r.words)| + 1
  {
    var r := Read(name);
    ReadsWords(name);
    JoinedIsTidy(r.words);
    TrimOne(Joined(r.words));
    assert Joined(r.words) + "" == Joined(r.words);
  }

  lemma WholeRead(name: string)
    requires |Joined(Read(name).words)| <= MAX_CONTACT_NAME
    ensures TrimEnd(Written(Read(name))) == Sanitized(name)
  {
    WrittenTrims(name);
  }

  lemma {:induction false} JoinedGrows(name: string, i: nat)
    requires i <= |name|
    ensures Joined(Read(name[..i]).words) <= Joined(Read(name).words)
  {
    if i == |name| {
      assert name[..i] == name;
    } else {
      var n := |name| - 1;
      assert name[..n][..i] == name[..i];
      JoinedGrows(name[..n], i);
      OneMoreRead(name, n);
      assert name[..n + 1] == name;
    }
  }

  /** Stopped at a shown character with 40 or more written: the rest is past the cut,
      and a space written as the 41st is trimmed. */
  lemma CutHere(name: string, i: nat)
    requires i < |name| && Shown(name[i])
    requires |Joined(Read(name[..i]).words)| <= MAX_CONTACT_NAME <= |Written(Read(name[..i]))|
    ensures TrimEnd(Written(Read(name[..i]))) == Sanitized(name)
  {
    OneMoreRead(name, i);
    JoinedGrows(name, i + 1);
    WrittenTrims(name[..i]);
    CutPrefix(Joined(Read(name[..i]).words), Written(Read(name[..i])), Joined(Read(name).words), name[i]);
  }

  lemma CutPrefix(joined: string, written: string, full: string, c: char)
    requires written + [c] <= full && |joined| <= MAX_CONTACT_NAME <= |written|
    requires written == joined || written == joined + " "
    ensures Upto(full, MAX_CONTACT_NAME) == joined || Upto(full, MAX_CONTACT_NAME) == written
  {
    assert full[..|written|] == written;
    assert written[..|joined|] == joined;
    assert full[..MAX_CONTACT_NAME] == written[..MAX_CONTACT_NAME];
  }

  // ---- clean names ----

  predicate CleanName(s: string) {
    Tidy(s) && EndsShown(s) && |s| <= MAX_CONTACT_NAME
  }

  /** **Every cleaned name is clean:** at most 40 characters, no leading, trailing or
      doubled space, no control or deceptive-format character. */
  lemma SanitizedIsClean(name: string)
    ensures CleanName(Sanitized(name))
  {
    var full := Joined(Read(name).words);
    ReadsWords(name);
    JoinedIsTidy(Read(name).words);
    var cut := Upto(full, MAX_CONTACT_NAME);
    assert cut <= full && Sanitized(name) <= cut;
    TidyPrefix(full, Sanitized(name));
  }

  lemma TidyPrefix(s: string, p: string)
    requires Tidy(s) && p <= s
    ensures Tidy(p)
  {
    assert forall i :: 0 <= i < |p| ==> p[i] == s[i];
  }

  /** A tidy name is read back as it stands. */
  lemma {:induction false} TidyReadsBack(s: string)
    ensures Tidy(s) ==> Written(Read(s)) == s && (s != "" ==> (Read(s).open <==> Shown(s[|s| - 1])))
  {
    if s != "" && Tidy(s) {
      var n := |s| - 1;
      TidyPrefix(s, s[..n]);
      TidyReadsBack(s[..n]);
      OneMoreRead(s, n);
      assert s[..n + 1] == s;
      assert s == s[..n] + [s[n]];
    }
  }

  /** **Cleaning leaves alone exactly the clean names.** */
  lemma CleanExactly(s: string)
    ensures Sanitized(s) == s <==> CleanName(s)
  {
    SanitizedIsClean(s);
    if CleanName(s) {
      TidyReadsBack(s);
      WrittenTrims(s);
      assert Joined(Read(s).words) + "" == Joined(Read(s).words);
      TrimOne(s);
    }
  }

  /** **Cleaning twice changes nothing.** */
  lemma Idempotent(name: string)
    ensures Sanitized(Sanitized(name)) == Sanitized(name)
  {
    SanitizedIsClean(name);
    CleanExactly(Sanitized(name));
  }

  lemma {:induction false} ReadDrops(a: string, d: char, b: string)
    requires !Shown(d) && !IsWhitespace(d)
    ensures Read(a + [d] + b) == Read(a + b)
  {
    if b == "" {
      assert a + b == a;
      assert a + [d] + b == a + [d];
      assert (a + [d])[..|a|] == a;
    } else {
      var n := |b| - 1;
      ReadDrops(a, d, b[..n]);
      ReadSplits(a + [d], b);
      ReadSplits(a, b);
    }
  }

  /** Reading is settled by the reading of all but the last character, and that one. */
  lemma ReadSplits(a: string, b: string)
    requires b != ""
    ensures (a + b)[..|a + b| - 1] == a + b[..|b| - 1] && (a + b)[|a + b| - 1] == b[|b| - 1]
  {
  }

  /** **No invisible character tells two names apart:** a dropped character anywhere
      in a name changes nothing. */
  lemma DroppedIsNothing(a: string, d: char, b: string)
    requires !Shown(d) && !IsWhitespace(d)
    ensures Sanitized(a + [d] + b) == Sanitized(a + b)
  {
    ReadDrops(a, d, b);
  }

  // ---- the book ----

  class ContactNames {
    var names: map<string, string>

    constructor ()
      ensures names == map[]
    {
      names := map[];
    }

    /** Sets or clears a name; a name that cleans to nothing removes the entry. */
    method Set(address: string, name: string) returns (stored: Option<string>)
      modifies this
      ensures stored == if Sanitized(name) == "" then None else Some(Sanitized(name))
      ensures stored.Some? ==> CleanName(stored.value) && stored.value != ""
      ensures names == if stored.Some? then old(names)[address := stored.value] else old(names) - {address}
      ensures old(AllClean()) ==> AllClean()
    {
      SanitizedIsClean(name);
      var cleaned := SanitizeName(name);
      if cleaned == "" {
        names := names - {address};
        return None;
      }
      names := names[address := cleaned];
      return Some(cleaned);
    }

    predicate AllClean()
      reads this
    {
      forall a :: a in names ==> names[a] != "" && CleanName(names[a])
    }
  }
}
