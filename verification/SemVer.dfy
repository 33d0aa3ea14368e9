/** Which strings are releases, and that on them the version order is precedence as section 11 of Semantic Versioning
    2.0.0 defines it (ts/src/vendor-graph.ts). */
module SemVer {
  import opened Basics
  import opened Strings
  import opened Versions
  import Decimal

  datatype Ident = Number(n: nat) | Word(text: string)

  /** Major, minor and patch number, or fewer or more of them. */
  datatype Version = Version(release: seq<nat>, pre: seq<Ident>)

  predicate IsIdentChar(c: char) { '0' <= c <= '9' || 'a' <= c <= 'z' || 'A' <= c <= 'Z' || c == '-' }

  /** Words are of letters, digits and hyphens, and not numbers. */
  predicate ValidIdent(x: Ident) {
    x.Word? ==> x.text != "" && !IsDigits(x.text) && forall i :: 0 <= i < |x.text| ==> IsIdentChar(x.text[i])
  }

  predicate Valid(v: Version) { v.release != [] && forall i :: 0 <= i < |v.pre| ==> ValidIdent(v.pre[i]) }

  /** Numbers below words; numbers by value, words in ASCII order. */
  predicate IdentPrecedes(x: Ident, y: Ident) {
    match x
    case Number(m) => y.Word? || m < y.n
    case Word(s) => y.Word? && Less(s, y.text)
  }

  /** Identifier by identifier; a longer list is higher when the shorter one is a prefix of it. */
  predicate IdentsPrecede(p: seq<Ident>, q: seq<Ident>) {
    if q == [] then false
    else if p == [] then true
    else IdentPrecedes(p[0], q[0]) || (p[0] == q[0] && IdentsPrecede(p[1..], q[1..]))
  }

  function First(p: seq<nat>): nat { if p == [] then 0 else p[0] }

  function Rest(p: seq<nat>): seq<nat> { if p == [] then [] else p[1..] }

  /** Number by number from the left; a number that is missing is 0. */
  predicate NumbersPrecede(p: seq<nat>, q: seq<nat>)
    decreases |p| + |q|
  {
    (p != [] || q != []) && (First(p) < First(q) || (First(p) == First(q) && NumbersPrecede(Rest(p), Rest(q))))
  }

  /** First the numbers; of two versions with the same numbers, one with a prerelease is below one without. */
  predicate Precedes(v: Version, w: Version) {
    if NumbersPrecede(v.release, w.release) then true
    else if NumbersPrecede(w.release, v.release) then false
    else v.pre != [] && (w.pre == [] || IdentsPrecede(v.pre, w.pre))
  }

  // ---- Written out ---------------------------------------------------------------------------------

  function IdentText(x: Ident): string { if x.Number? then Decimal.ToString(x.n) else x.text }

  function Texts(xs: seq<Ident>): (r: seq<string>)
    ensures |r| == |xs| && forall i :: 0 <= i < |xs| ==> r[i] == IdentText(xs[i])
  {
    seq(|xs|, i requires 0 <= i < |xs| => IdentText(xs[i]))
  }

  function Dotted(parts: seq<string>): string
    requires parts != []
  {
    if |parts| == 1 then parts[0] else parts[0] + "." + Dotted(parts[1..])
  }

  predicate Lacks(s: string, c: char) { forall i :: 0 <= i < |s| ==> s[i] != c }

  /** The documented shape: an optional v, runs of digits between dots, optionally a hyphen and prerelease identifiers
      between dots, optionally a plus and build metadata. */
  datatype Written = Written(prefixed: bool, release: seq<string>, pre: Option<seq<string>>, build: Option<string>)

  ghost predicate AreIdents(parts: seq<string>) {
    parts != [] && forall i :: 0 <= i < |parts| ==> parts[i] != "" && Lacks(parts[i], '.') && Lacks(parts[i], '+')
  }

  ghost predicate HasShape(w: Written) {
    w.release != [] && AllDigits(w.release) && (w.pre.Some? ==> AreIdents(w.pre.value))
  }

  function Tail(build: Option<string>): string { if build.Some? then "+" + build.value else "" }

  function PreText(pre: Option<seq<string>>): string
    requires pre.Some? ==> pre.value != []
  {
    if pre.Some? then "-" + Dotted(pre.value) else ""
  }

  function BodyText(w: Written): string
    requires w.release != [] && (w.pre.Some? ==> w.pre.value != [])
  {
    Dotted(w.release) + PreText(w.pre)
  }

  function TextOf(w: Written): string
    requires w.release != [] && (w.pre.Some? ==> w.pre.value != [])
  {
    (if w.prefixed then "v" else "") + (BodyText(w) + Tail(w.build))
  }

  function Core(v: Version): (r: seq<string>)
    ensures |r| == |v.release| && forall i :: 0 <= i < |r| ==> r[i] == Decimal.ToString(v.release[i])
  {
    seq(|v.release|, i requires 0 <= i < |v.release| => Decimal.ToString(v.release[i]))
  }

  function Pre(v: Version): Option<seq<string>> { if v.pre == [] then None else Some(Texts(v.pre)) }

  /** A semantic version as text, with or without a v in front, with any build metadata or none. */
  function Show(v: Version, prefixed: bool, build: Option<string>): string
    requires Valid(v)
  {
    TextOf(Written(prefixed, Core(v), Pre(v), build))
  }

  // ---- Reading it back -----------------------------------------------------------------------------

  lemma IndexAt(a: string, c: char, rest: string)
    requires Lacks(a, c)
    ensures IndexOf(a, c) == |a| && IndexOf(a + [c] + rest, c) == |a|
  {
    var s, n := a + [c] + rest, IndexOf(a + [c] + rest, c);
    assert s[|a|] == c;
    assert forall i :: 0 <= i < |a| ==> s[i] == a[i];
  }

  lemma {:induction false} SplitDotted(parts: seq<string>)
    requires parts != [] && forall i :: 0 <= i < |parts| ==> Lacks(parts[i], '.')
    ensures Split(Dotted(parts)) == parts
  {
    if |parts| == 1 {
      IndexAt(parts[0], '.', "");
    } else {
      var rest := Dotted(parts[1..]);
      var s := parts[0] + ['.'] + rest;
      IndexAt(parts[0], '.', rest);
      assert s[..|parts[0]|] == parts[0] && s[|parts[0]| + 1..] == rest;
      SplitDotted(parts[1..]);
    }
  }

  lemma {:induction false} DottedLacks(parts: seq<string>, c: char)
    requires parts != [] && c != '.' && forall i :: 0 <= i < |parts| ==> Lacks(parts[i], c)
    ensures Lacks(Dotted(parts), c)
  {
    if |parts| > 1 {
      DottedLacks(parts[1..], c);
    }
  }

  lemma NumberText(n: nat)
    ensures IsDigits(Decimal.ToString(n)) && Decimal.Value(Decimal.ToString(n)) == n
    ensures forall c :: !Decimal.IsDigit(c) ==> Lacks(Decimal.ToString(n), c)
  {
    Decimal.RoundTrip(n);
  }

  lemma IdentTextFacts(x: Ident)
    requires ValidIdent(x)
    ensures IdentText(x) != "" && Lacks(IdentText(x), '.') && Lacks(IdentText(x), '+')
    ensures IsDigits(IdentText(x)) <==> x.Number?
    ensures x.Number? ==> Decimal.Value(IdentText(x)) == x.n
  {
    if x.Number? {
      NumberText(x.n);
    }
  }

  lemma FirstOfDotted(parts: seq<string>)
    requires parts != [] && parts[0] != ""
    ensures Dotted(parts) != "" && Dotted(parts)[0] == parts[0][0]
  {}

  lemma DigitsLack(release: seq<string>, c: char)
    requires AllDigits(release) && !Decimal.IsDigit(c)
    ensures forall i :: 0 <= i < |release| ==> Lacks(release[i], c)
  {
    forall i | 0 <= i < |release| ensures Lacks(release[i], c) {
      assert IsDigits(release[i]);
    }
  }

  lemma ReleaseFacts(release: seq<string>)
    requires release != [] && AllDigits(release)
    ensures Split(Dotted(release)) == release && Lacks(Dotted(release), '+') && Lacks(Dotted(release), '-')
    ensures Dotted(release) != "" && Decimal.IsDigit(Dotted(release)[0])
  {
    hide Dotted, Split, Lacks;
    assert IsDigits(release[0]);
    DigitsLack(release, '.');
    DigitsLack(release, '+');
    DigitsLack(release, '-');
    SplitDotted(release);
    DottedLacks(release, '+');
    DottedLacks(release, '-');
    FirstOfDotted(release);
  }

  lemma PreFacts(parts: seq<string>)
    requires AreIdents(parts)
    ensures Split(Dotted(parts)) == parts && NoneEmpty(parts) && Lacks(Dotted(parts), '+')
  {
    hide Lacks;
    SplitDotted(parts);
    DottedLacks(parts, '+');
  }

  lemma LacksBoth(a: string, c: char, b: string)
    requires Lacks(a, c) && Lacks(b, c)
    ensures Lacks(a + b, c)
  {}

  lemma BodyFacts(w: Written)
    requires HasShape(w)
    ensures Lacks(BodyText(w), '+') && BodyText(w) != "" && Decimal.IsDigit(BodyText(w)[0])
  {
    hide Dotted, Lacks;
    ReleaseFacts(w.release);
    assert Lacks("", '+') && Lacks("-", '+') by { NoPlus(); }
    if w.pre.Some? {
      PreFacts(w.pre.value);
      LacksBoth("-", '+', Dotted(w.pre.value));
    }
    LacksBoth(Dotted(w.release), '+', PreText(w.pre));
  }

  lemma NoPlus()
    ensures Lacks("", '+') && Lacks("-", '+')
  {}

  lemma StripText(w: Written)
    requires HasShape(w)
    ensures StripV(TextOf(w)) == BodyText(w) + Tail(w.build)
  {
    hide AllDigits, BodyText;
    BodyFacts(w);
    var raw, rest := TextOf(w), BodyText(w) + Tail(w.build);
    if w.prefixed {
      assert raw == "v" + rest && ("v" + rest)[1..] == rest;
    } else {
      assert raw == rest && rest[0] == BodyText(w)[0];
    }
  }

  lemma CutText(body: string, build: Option<string>)
    requires Lacks(body, '+')
    ensures Cut(body + Tail(build), '+') == body
  {
    if build.Some? {
      IndexAt(body, '+', build.value);
      assert body + Tail(build) == body + ['+'] + build.value;
      assert (body + Tail(build))[..|body|] == body;
    } else {
      IndexAt(body, '+', "");
      assert body + Tail(build) == body;
    }
  }

  /** What is written in the documented shape is read back, whatever the prefix and the build metadata. */
  lemma ParseText(w: Written)
    requires HasShape(w)
    ensures ParseVersion(TextOf(w)) == Some(Parsed(w.release, w.pre))
  {
    hide Dotted, Split, StripV, Cut, TextOf;
    BodyFacts(w);
    ReleaseFacts(w.release);
    StripText(w);
    CutText(BodyText(w), w.build);
    var core := Dotted(w.release);
    if w.pre.None? {
      assert BodyText(w) == core;
      IndexAt(core, '-', "");
      assert core[..|core|] == core;
    } else {
      var rest := Dotted(w.pre.value);
      PreFacts(w.pre.value);
      assert BodyText(w) == core + ['-'] + rest;
      IndexAt(core, '-', rest);
      assert BodyText(w)[..|core|] == core && BodyText(w)[|core| + 1..] == rest;
    }
  }

  // ---- Which strings are releases ----------------------------------------------------------------------

  lemma {:induction false} DottedSplit(s: string)
    ensures Split(s) != [] && Dotted(Split(s)) == s
    ensures forall i :: 0 <= i < |Split(s)| ==> Lacks(Split(s)[i], '.')
    decreases |s|
  {
    var dot := IndexOf(s, '.');
    IndexFirst(s, '.');
    if dot < |s| {
      DottedSplit(s[dot + 1..]);
      assert s == s[..dot] + "." + s[dot + 1..];
      var rest := Split(s[dot + 1..]);
      assert Split(s) == [s[..dot]] + rest && Split(s)[1..] == rest;
    } else {
      assert s[..dot] == s;
    }
  }

  lemma IndexFirst(s: string, c: char)
    ensures Lacks(s[..IndexOf(s, c)], c) && (IndexOf(s, c) < |s| ==> s[IndexOf(s, c)] == c)
  {}

  lemma {:induction false} PartsLack(parts: seq<string>, c: char)
    requires parts != [] && Lacks(Dotted(parts), c)
    ensures forall i :: 0 <= i < |parts| ==> Lacks(parts[i], c)
  {
    if |parts| > 1 {
      var rest := Dotted(parts[1..]);
      assert Dotted(parts) == parts[0] + "." + rest;
      forall i | 0 <= i < |parts[0]| ensures parts[0][i] != c {
        assert Dotted(parts)[i] == parts[0][i];
      }
      forall i | 0 <= i < |rest| ensures rest[i] != c {
        assert Dotted(parts)[|parts[0]| + 1 + i] == rest[i];
      }
      PartsLack(parts[1..], c);
      forall i | 0 <= i < |parts| ensures Lacks(parts[i], c) {
        assert i > 0 ==> parts[i] == parts[1..][i - 1];
      }
    }
  }

  /** A string of digits and dots, or one with a hyphen and identifiers behind it, in the documented shape. */
  lemma BodyHasShape(s: string)
    requires Lacks(s, '+') && IndexOf(s, '-') > 0 && AllDigits(Split(s[..IndexOf(s, '-')]))
    requires IndexOf(s, '-') < |s| ==> NoneEmpty(Split(s[IndexOf(s, '-') + 1..]))
    ensures var dash := IndexOf(s, '-');
      var w := Written(false, Split(s[..dash]), if dash == |s| then None else Some(Split(s[dash + 1..])), None);
      HasShape(w) && BodyText(w) == s
  {
    hide Split, Dotted, AllDigits, Lacks, AreIdents;
    var dash := IndexOf(s, '-');
    IndexFirst(s, '-');
    DottedSplit(s[..dash]);
    if dash < |s| {
      var rest := s[dash + 1..];
      DottedSplit(rest);
      LacksTail(s, dash + 1, '+');
      AreIdentsFrom(rest);
      assert s == s[..dash] + ("-" + rest);
    } else {
      assert s[..dash] == s && s + "" == s;
    }
  }

  lemma LacksTail(s: string, i: nat, c: char)
    requires i <= |s| && Lacks(s, c)
    ensures Lacks(s[i..], c)
  {}

  lemma AreIdentsFrom(rest: string)
    requires Lacks(rest, '+') && NoneEmpty(Split(rest))
    ensures AreIdents(Split(rest))
  {
    hide Split, Dotted, Lacks;
    DottedSplit(rest);
    PartsLack(Split(rest), '+');
  }

  /** The way a release-shaped string is written. */
  lemma ShapeOf(raw: string) returns (w: Written)
    requires ParseVersion(raw).Some?
    ensures HasShape(w) && TextOf(w) == raw
  {
    hide Split, AllDigits, NoneEmpty, IndexOf, HasShape, BodyText, Lacks;
    var stripped := StripV(raw);
    var plus := IndexOf(stripped, '+');
    var s := stripped[..plus];
    IndexFirst(stripped, '+');
    BodyHasShape(s);
    var dash := IndexOf(s, '-');
    var prefixed, build := stripped != raw, if plus == |stripped| then None else Some(stripped[plus + 1..]);
    var plain := Written(false, Split(s[..dash]), if dash == |s| then None else Some(Split(s[dash + 1..])), None);
    w := plain.(prefixed := prefixed, build := build);
    SameShape(plain, w);
    assert stripped == s + Tail(build);
    assert raw == (if prefixed then "v" else "") + stripped;
  }

  lemma SameShape(w: Written, w': Written)
    requires HasShape(w) && w'.release == w.release && w'.pre == w.pre
    ensures HasShape(w') && BodyText(w') == BodyText(w)
  {}

  ghost predicate IsReleaseText(raw: string) { exists w :: HasShape(w) && TextOf(w) == raw }

  /** A string is taken for a release exactly when it has the documented shape. */
  lemma ReleasesExactly(raw: string)
    ensures ParseVersion(raw).Some? <==> IsReleaseText(raw)
  {
    hide ParseVersion, TextOf, AllDigits;
    if ParseVersion(raw).Some? {
      var w := ShapeOf(raw);
    }
    if IsReleaseText(raw) {
      var w :| HasShape(w) && TextOf(w) == raw;
      ParseText(w);
    }
  }

  /** Digits, a hyphen and one more identifier, as in a date: a release with a prerelease. */
  lemma DatesAreReleases(year: string, rest: string)
    requires IsDigits(year) && rest != "" && Lacks(rest, '.') && Lacks(rest, '+')
    ensures IsReleaseText(year + "-" + rest) && ParseVersion(year + "-" + rest) == Some(Parsed([year], Some([rest])))
  {
    hide ParseVersion;
    var w := Written(false, [year], Some([rest]), None);
    assert BodyText(w) == year + ("-" + rest) && TextOf(w) == year + "-" + rest;
    ParseText(w);
  }

  /** The documentation lists dates among what is no release, but this one has the documented shape. */
  lemma DateIsRelease()
    ensures IsReleaseText("2024-01-15") && ParseVersion("2024-01-15") == Some(Parsed(["2024"], Some(["01-15"])))
  {
    hide ParseVersion;
    DatesAreReleases("2024", "01-15");
    assert "2024" + "-" + "01-15" == "2024-01-15";
  }

  // ---- Semantic versions -------------------------------------------------------------------------------

  /** The k-th number; a missing one is 0. */
  function NumberAt(p: seq<nat>, k: nat): nat { if k < |p| then p[k] else 0 }

  lemma CoreFacts(v: Version)
    ensures AllDigits(Core(v))
    ensures forall k: nat :: NumAt(Core(v), k) == NumberAt(v.release, k)
  {
    forall i | 0 <= i < |Core(v)| ensures IsDigits(Core(v)[i]) && Decimal.Value(Core(v)[i]) == v.release[i] {
      NumberText(v.release[i]);
    }
  }

  /** Every written version is release-shaped, and its parts are read back. */
  lemma ParseShow(v: Version, prefixed: bool, build: Option<string>)
    requires Valid(v)
    ensures ParseVersion(Show(v, prefixed, build)) == Some(Parsed(Core(v), Pre(v)))
  {
    hide ParseVersion, TextOf, Core, IdentText, Lacks;
    CoreFacts(v);
    forall i | 0 <= i < |v.pre| ensures Texts(v.pre)[i] != "" && Lacks(Texts(v.pre)[i], '.') && Lacks(Texts(v.pre)[i], '+') {
      IdentTextFacts(v.pre[i]);
    }
    var w := Written(prefixed, Core(v), Pre(v), build);
    ParseText(w);
  }

  // ---- Refinement ----------------------------------------------------------------------------------

  lemma IdentRefines(x: Ident, y: Ident)
    requires ValidIdent(x) && ValidIdent(y)
    ensures IdentPrecedes(x, y) ==> LowerId(IdentText(x), IdentText(y))
    ensures SameId(IdentText(x), IdentText(x))
  {
    IdentTextFacts(x);
    IdentTextFacts(y);
  }

  lemma LowerAtCons(x: string, y: string, ps: seq<string>, qs: seq<string>, i: nat)
    requires SameId(x, y) && LowerAt(ps, qs, i)
    ensures LowerAt([x] + ps, [y] + qs, i + 1)
  {
    hide SameId, LowerId;
  }

  lemma TextsCons(p: seq<Ident>)
    requires p != []
    ensures Texts(p) == [IdentText(p[0])] + Texts(p[1..])
  {}

  lemma {:induction false} IdentsRefine(p: seq<Ident>, q: seq<Ident>) returns (k: nat)
    requires (forall i :: 0 <= i < |p| ==> ValidIdent(p[i])) && (forall i :: 0 <= i < |q| ==> ValidIdent(q[i]))
    requires IdentsPrecede(p, q)
    ensures LowerAt(Texts(p), Texts(q), k)
  {
    if p == [] {
      k := 0;
    } else {
      hide LowerId, SameId, Texts, IdentPrecedes, ValidIdent, IdentText;
      IdentRefines(p[0], q[0]);
      TextsCons(p);
      TextsCons(q);
      if IdentPrecedes(p[0], q[0]) {
        k := 0;
      } else {
        var i := IdentsRefine(p[1..], q[1..]);
        LowerAtCons(IdentText(p[0]), IdentText(q[0]), Texts(p[1..]), Texts(q[1..]), i);
        k := i + 1;
      }
    }
  }

  lemma SameAsItself(texts: seq<string>)
    ensures EqualIds(texts, texts)
  {
    forall j | 0 <= j < |texts| ensures SameId(texts[j], texts[j]) {
      IdTotal(texts[j], texts[j]);
    }
  }

  lemma {:induction false} NumbersDiffer(p: seq<nat>, q: seq<nat>) returns (k: nat)
    requires NumbersPrecede(p, q)
    ensures NumberAt(p, k) < NumberAt(q, k) && forall j: nat :: j < k ==> NumberAt(p, j) == NumberAt(q, j)
    decreases |p| + |q|
  {
    if First(p) < First(q) {
      k := 0;
    } else {
      var i := NumbersDiffer(Rest(p), Rest(q));
      k := i + 1;
      assert NumberAt(p, k) == NumberAt(Rest(p), i) && NumberAt(q, k) == NumberAt(Rest(q), i);
      forall j: nat | j < k ensures NumberAt(p, j) == NumberAt(q, j) {
        if j > 0 {
          assert NumberAt(p, j) == NumberAt(Rest(p), j - 1) && NumberAt(q, j) == NumberAt(Rest(q), j - 1);
        }
      }
    }
  }

  lemma {:induction false} NumbersAgree(p: seq<nat>, q: seq<nat>, k: nat)
    requires !NumbersPrecede(p, q) && !NumbersPrecede(q, p)
    ensures NumberAt(p, k) == NumberAt(q, k)
    decreases |p| + |q|
  {
    if (p != [] || q != []) && k > 0 {
      NumbersAgree(Rest(p), Rest(q), k - 1);
      assert NumberAt(p, k) == NumberAt(Rest(p), k - 1) && NumberAt(q, k) == NumberAt(Rest(q), k - 1);
    }
  }

  lemma {:induction false} IdentsAgree(p: seq<Ident>, q: seq<Ident>)
    requires !IdentsPrecede(p, q) && !IdentsPrecede(q, p)
    ensures p == q
  {
    if p != [] && q != [] {
      if p[0].Word? && q[0].Word? {
        Trichotomy(p[0].text, q[0].text);
      }
      IdentsAgree(p[1..], q[1..]);
      assert p == [p[0]] + p[1..] && q == [q[0]] + q[1..];
    }
  }

  lemma CoresOrdered(v: Version, w: Version)
    ensures AllDigits(Core(v)) && AllDigits(Core(w))
    ensures NumbersPrecede(v.release, w.release) ==> LowerRelease(Core(v), Core(w))
    ensures !NumbersPrecede(v.release, w.release) && !NumbersPrecede(w.release, v.release) ==> SameRelease(Core(v), Core(w))
  {
    CoreFacts(v);
    CoreFacts(w);
    hide NumAt, Core;
    if NumbersPrecede(v.release, w.release) {
      var k := NumbersDiffer(v.release, w.release);
      assert NumAt(Core(v), k) < NumAt(Core(w), k);
    } else if !NumbersPrecede(w.release, v.release) {
      forall k: nat ensures NumAt(Core(v), k) == NumAt(Core(w), k) {
        NumbersAgree(v.release, w.release, k);
      }
    }
  }

  /** What precedes is below, whatever prefix and build metadata. */
  lemma PrecedesIsBelow(v: Version, w: Version, p: bool, q: bool, b: Option<string>, c: Option<string>)
    requires Valid(v) && Valid(w) && Precedes(v, w)
    ensures Below(Show(v, p, b), Show(w, q, c))
  {
    hide ParseVersion, Show, Core, NumAt, NumbersPrecede, SameRelease, LowerRelease;
    ParseShow(v, p, b);
    ParseShow(w, q, c);
    CoresOrdered(v, w);
    if !NumbersPrecede(v.release, w.release) && w.pre != [] {
      var k := IdentsRefine(v.pre, w.pre);
    }
  }

  /** On written versions the order is precedence by section 11, whatever prefix and build metadata; versions of which
      neither precedes the other are ordered by their text. */
  lemma RefinesSemVer(v: Version, w: Version, p: bool, q: bool, b: Option<string>, c: Option<string>)
    requires Valid(v) && Valid(w)
    ensures Below(Show(v, p, b), Show(w, q, c))
      <==> Precedes(v, w) || (!Precedes(w, v) && Less(Show(v, p, b), Show(w, q, c)))
  {
    hide Below, Show, Less;
    BelowTotal(Show(v, p, b), Show(w, q, c));
    if Precedes(v, w) {
      PrecedesIsBelow(v, w, p, q, b, c);
    } else if Precedes(w, v) {
      PrecedesIsBelow(w, v, q, p, c, b);
    } else {
      SameIsByText(v, w, p, q, b, c);
    }
  }

  lemma SameIsByText(v: Version, w: Version, p: bool, q: bool, b: Option<string>, c: Option<string>)
    requires Valid(v) && Valid(w) && !Precedes(v, w) && !Precedes(w, v)
    ensures Below(Show(v, p, b), Show(w, q, c)) <==> Less(Show(v, p, b), Show(w, q, c))
  {
    hide ParseVersion, Show, Core, NumAt, NumbersPrecede, SameRelease, LowerRelease, Texts, EqualIds, LowerIds;
    ParseShow(v, p, b);
    ParseShow(w, q, c);
    CoresOrdered(v, w);
    IdentsAgree(v.pre, w.pre);
    SameAsItself(Texts(v.pre));
    PrecedenceTotal(ParseVersion(Show(v, p, b)).value, ParseVersion(Show(w, q, c)).value);
  }

  // ---- What is no release ----------------------------------------------------------------------------------

  /** A string that does not have the documented shape is below every one that has, never above one; two such strings are
      in the order of their characters. */
  lemma NonReleasesFirst(a: string, b: string)
    requires !IsReleaseText(a)
    ensures IsReleaseText(b) ==> Below(a, b) && !Below(b, a)
    ensures !IsReleaseText(b) ==> (Below(a, b) <==> Less(a, b))
  {
    hide ParseVersion, IsReleaseText, LowerPrecedence, SamePrecedence;
    ReleasesExactly(a);
    ReleasesExactly(b);
  }

  /** A plain word is below a release, though its letters are above digits. */
  lemma UnknownIsBelow()
    ensures Below("unknown", "0.4.46") && Less("0.4.46", "unknown")
  {
    hide Below;
    assert !IsDigits("unknown") by { assert "unknown"[0] == 'u'; }
    NotARelease("unknown");
    var w := Written(false, ["0", "4", "46"], None, None);
    assert w.release[1..] == ["4", "46"] && w.release[1..][1..] == ["46"];
    assert Dotted(["46"]) == "46" && Dotted(["4", "46"]) == "4.46" && Dotted(w.release) == "0.4.46";
    assert TextOf(w) == "0.4.46" && HasShape(w);
    NonReleasesFirst("unknown", "0.4.46");
  }

  lemma NotARelease(raw: string)
    requires raw != "" && raw[0] != 'v' && !Decimal.IsDigit(raw[0])
    ensures !IsReleaseText(raw)
  {
    if IsReleaseText(raw) {
      var w :| HasShape(w) && TextOf(w) == raw;
      BodyFacts(w);
    }
  }
}
