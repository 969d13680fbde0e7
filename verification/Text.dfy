/** The string operations of the Go standard library that the components rely
    on: lexical order, trimming, and cutting a dotted path into segments. */
module Text {

  // ---------------------------------------------------------------- order

  /** Go's `<` on strings. */
  predicate StringLess(a: string, b: string) {
    if b == "" then false
    else if a == "" then true
    else if a[0] != b[0] then a[0] < b[0]
    else StringLess(a[1..], b[1..])
  }

  lemma {:induction false} StringLessIrreflexive(a: string)
    ensures !StringLess(a, a)
  {
    if a != "" { StringLessIrreflexive(a[1..]); }
  }

  lemma {:induction false} StringLessTransitive(a: string, b: string, c: string)
    requires StringLess(a, b) && StringLess(b, c)
    ensures StringLess(a, c)
  {
    if a != "" && a[0] == b[0] == c[0] { StringLessTransitive(a[1..], b[1..], c[1..]); }
  }

  lemma {:induction false} StringLessTotal(a: string, b: string)
    ensures StringLess(a, b) || a == b || StringLess(b, a)
  {
    if a != "" && b != "" && a[0] == b[0] {
      StringLessTotal(a[1..], b[1..]);
      assert a == [a[0]] + a[1..] && b == [b[0]] + b[1..];
    }
  }

  /** At the first place where they differ the smaller has ended or has the
      smaller character. */
  lemma {:induction false} StringLessLexical(a: string, b: string)
    ensures StringLess(a, b) <==>
            exists k: nat :: k <= |a| && k < |b| && a[..k] == b[..k] && (k == |a| || a[k] < b[k])
  {
    if a == "" || b == "" {
      if a == "" && b != "" { assert a[..0] == b[..0]; }
    } else {
      StringLessLexical(a[1..], b[1..]);
      if StringLess(a, b) {
        if a[0] != b[0] {
          assert a[..0] == b[..0];
        } else {
          var k: nat :| k <= |a[1..]| && k < |b[1..]| && a[1..][..k] == b[1..][..k] && (k == |a[1..]| || a[1..][k] < b[1..][k]);
          assert a[..k + 1] == [a[0]] + a[1..][..k] && b[..k + 1] == [b[0]] + b[1..][..k];
        }
      }
      if k: nat :| k <= |a| && k < |b| && a[..k] == b[..k] && (k == |a| || a[k] < b[k]) {
        if k > 0 {
          assert a[0] == a[..k][0] == b[..k][0] == b[0];
          assert a[1..][..k - 1] == a[..k][1..] == b[..k][1..] == b[1..][..k - 1];
        }
      }
    }
  }

  ghost predicate Ascending(s: seq<string>) {
    forall i, j :: 0 <= i < j < |s| ==> StringLess(s[i], s[j])
  }

  /** Where `x` belongs in an ascending sequence that does not hold it. */
  function Insert(s: seq<string>, x: string): (r: seq<string>) {
    if s == [] || StringLess(x, s[0]) then [x] + s else [s[0]] + Insert(s[1..], x)
  }

  lemma {:induction false} InsertAscending(s: seq<string>, x: string)
    requires Ascending(s) && x !in s
    ensures Ascending(Insert(s, x))
    ensures |Insert(s, x)| == |s| + 1
    ensures forall y :: y in Insert(s, x) <==> y == x || y in s
  {
    if s != [] {
      if StringLess(x, s[0]) {
        forall j | 0 <= j < |s| ensures StringLess(x, s[j]) {
          if j > 0 { StringLessTransitive(x, s[0], s[j]); }
        }
      } else {
        StringLessTotal(x, s[0]);
        InsertAscending(s[1..], x);
        var rest := Insert(s[1..], x);
        forall j | 0 <= j < |rest| ensures StringLess(s[0], rest[j]) {
          assert rest[j] == x || rest[j] in s[1..];
        }
      }
    }
  }

  /** Collects the keys of a Go map, which come in no particular order, and
      sorts them (`sort.Strings`). */
  method SortedNames(names: set<string>) returns (sorted: seq<string>)
    ensures Ascending(sorted)
    ensures forall x :: x in sorted <==> x in names
    ensures |sorted| == |names|
  {
    sorted := [];
    var left := names;
    while left != {}
      invariant left <= names
      invariant Ascending(sorted)
      invariant forall x :: x in sorted <==> x in names - left
      invariant |sorted| + |left| == |names|
      decreases |left|
    {
      var x :| x in left;
      InsertAscending(sorted, x);
      sorted := Insert(sorted, x);
      left := left - {x};
    }
  }

  // ------------------------------------------------------------- trimming

  /** `unicode.IsSpace`. */
  predicate IsSpace(c: char) {
    var n := c as int;
    9 <= n <= 13 || n == 0x20 || n == 0x85 || n == 0xA0 || n == 0x1680 || 0x2000 <= n <= 0x200A ||
    n == 0x2028 || n == 0x2029 || n == 0x202F || n == 0x205F || n == 0x3000
  }

  function TrimSpaceLeft(s: string): string {
    if s != "" && IsSpace(s[0]) then TrimSpaceLeft(s[1..]) else s
  }

  function TrimSpaceRight(s: string): string {
    if s != "" && IsSpace(s[|s| - 1]) then TrimSpaceRight(s[..|s| - 1]) else s
  }

  /** `strings.TrimSpace`. */
  function TrimSpace(s: string): string {
    TrimSpaceRight(TrimSpaceLeft(s))
  }

  /** No outer whitespace. */
  predicate Trimmed(s: string) {
    s != "" ==> !IsSpace(s[0]) && !IsSpace(s[|s| - 1])
  }

  lemma TrimmedIsFixed(s: string)
    requires Trimmed(s)
    ensures TrimSpace(s) == s
  {
  }

  lemma {:induction false} TrimLeftTrims(s: string)
    ensures TrimSpaceLeft(s) != "" ==> !IsSpace(TrimSpaceLeft(s)[0])
  {
    if s != "" && IsSpace(s[0]) { TrimLeftTrims(s[1..]); }
  }

  lemma {:induction false} TrimRightTrims(s: string)
    ensures TrimSpaceRight(s) <= s
    ensures TrimSpaceRight(s) != "" ==> !IsSpace(TrimSpaceRight(s)[|TrimSpaceRight(s)| - 1])
  {
    if s != "" && IsSpace(s[|s| - 1]) { TrimRightTrims(s[..|s| - 1]); }
  }

  lemma TrimTrims(s: string)
    ensures Trimmed(TrimSpace(s))
  {
    TrimLeftTrims(s);
    TrimRightTrims(TrimSpaceLeft(s));
  }

  predicate AllSpace(s: string) {
    forall i :: 0 <= i < |s| ==> IsSpace(s[i])
  }

  /** Trimming cuts whitespace off both ends and nothing else. */
  lemma TrimCuts(s: string) returns (before: string, after: string)
    ensures s == before + TrimSpace(s) + after && AllSpace(before) && AllSpace(after) && Trimmed(TrimSpace(s))
  {
    before := TrimLeftCuts(s);
    after := TrimRightCuts(TrimSpaceLeft(s));
    TrimTrims(s);
  }

  lemma {:induction false} TrimLeftCuts(s: string) returns (before: string)
    ensures s == before + TrimSpaceLeft(s) && AllSpace(before)
  {
    before := "";
    if s != "" && IsSpace(s[0]) {
      var rest := TrimLeftCuts(s[1..]);
      before := [s[0]] + rest;
    }
  }

  lemma {:induction false} TrimRightCuts(s: string) returns (after: string)
    ensures s == TrimSpaceRight(s) + after && AllSpace(after)
  {
    after := "";
    if s != "" && IsSpace(s[|s| - 1]) {
      var rest := TrimRightCuts(s[..|s| - 1]);
      after := rest + [s[|s| - 1]];
    }
  }

  /** Nothing is left exactly of whitespace. */
  lemma BlankIsSpace(s: string)
    ensures TrimSpace(s) == "" <==> AllSpace(s)
  {
    hide TrimSpace;
    var before, after := TrimCuts(s);
    if TrimSpace(s) == "" {
      assert s == before + after;
    } else {
      assert s[|before|] == TrimSpace(s)[0];
    }
  }

  function TrimAll(paths: seq<string>): (r: seq<string>)
    ensures |r| == |paths| && forall i :: 0 <= i < |paths| ==> r[i] == TrimSpace(paths[i])
  {
    seq(|paths|, i requires 0 <= i < |paths| => TrimSpace(paths[i]))
  }

  predicate DistinctStrings(paths: seq<string>) {
    forall i, j :: 0 <= i < j < |paths| ==> paths[i] != paths[j]
  }

  /** `len` of a Go string counts UTF-8 bytes. */
  function ByteLength(s: string): nat {
    if s == "" then 0
    else
      var c := s[0] as int;
      (if c < 0x80 then 1 else if c < 0x800 then 2 else if c < 0x1_0000 then 3 else 4) + ByteLength(s[1..])
  }

  /** How many characters there are from a code point on. */
  ghost function CharsFrom(s: string, code: int): nat {
    if s == "" then 0 else CharsFrom(s[..|s| - 1], code) + if s[|s| - 1] as int >= code then 1 else 0
  }

  /** One byte each, and one more from each of U+0080, U+0800 and U+10000 on. */
  lemma {:induction false} ByteLengthCounts(s: string)
    ensures ByteLength(s) == |s| + CharsFrom(s, 0x80) + CharsFrom(s, 0x800) + CharsFrom(s, 0x1_0000)
  {
    if s != "" {
      ByteLengthCounts(s[..|s| - 1]);
      ByteLengthAdds(s[..|s| - 1], s[|s| - 1..]);
      assert s == s[..|s| - 1] + s[|s| - 1..] && s[|s| - 1..][1..] == "";
    }
  }

  lemma {:induction false} ByteLengthAdds(a: string, b: string)
    ensures ByteLength(a + b) == ByteLength(a) + ByteLength(b)
  {
    if a == "" {
      assert a + b == b;
    } else {
      ByteLengthAdds(a[1..], b);
      assert (a + b)[1..] == a[1..] + b;
    }
  }

  // ------------------------------------------------------- dotted segments

  /** `strings.Cut(s, ".")`: before the first dot, after it, and whether there is one. */
  function Cut(s: string): (r: (string, string, bool))
    ensures '.' !in r.0
    ensures if r.2 then s == r.0 + "." + r.1 && |r.1| < |s| else s == r.0 && r.1 == ""
  {
    if s == "" then ("", "", false)
    else if s[0] == '.' then assert s == "" + "." + s[1..]; ("", s[1..], true)
    else
      var rest := Cut(s[1..]);
      assert s == [s[0]] + s[1..];
      ([s[0]] + rest.0, rest.1, rest.2)
  }

  /** `strings.Split(s, ".")`. */
  function Segments(s: string): (r: seq<string>)
    ensures |r| >= 1
    ensures forall i :: 0 <= i < |r| ==> '.' !in r[i]
    decreases |s|
  {
    var cut := Cut(s);
    if cut.2 then [cut.0] + Segments(cut.1) else [cut.0]
  }

  /** `strings.Join(segments, ".")`. */
  function Join(segments: seq<string>): string
    requires segments != []
  {
    if |segments| == 1 then segments[0] else segments[0] + "." + Join(segments[1..])
  }

  predicate Dotless(segments: seq<string>) {
    forall i :: 0 <= i < |segments| ==> '.' !in segments[i]
  }

  lemma {:induction false} CutAtDot(before: string, after: string)
    requires '.' !in before
    ensures Cut(before + "." + after) == (before, after, true)
  {
    var s := before + "." + after;
    if before == "" {
      assert s[1..] == after;
    } else {
      CutAtDot(before[1..], after);
      assert s[1..] == before[1..] + "." + after;
      assert before == [before[0]] + before[1..];
    }
  }

  lemma {:induction false} CutNoDot(s: string)
    requires '.' !in s
    ensures Cut(s) == (s, "", false)
  {
    if s != "" {
      CutNoDot(s[1..]);
      assert s == [s[0]] + s[1..];
    }
  }

  /** Cutting undoes joining, on any segments without a dot ... */
  lemma {:induction false} SegmentsOfJoin(segments: seq<string>)
    requires segments != [] && Dotless(segments)
    ensures Segments(Join(segments)) == segments
  {
    if |segments| == 1 {
      CutNoDot(segments[0]);
    } else {
      CutAtDot(segments[0], Join(segments[1..]));
      SegmentsOfJoin(segments[1..]);
    }
  }

  /** ... and joining undoes cutting, on any text. */
  lemma {:induction false} JoinOfSegments(s: string)
    ensures Join(Segments(s)) == s
    decreases |s|
  {
    var cut := Cut(s);
    if cut.2 { JoinOfSegments(cut.1); }
  }

  lemma {:induction false} SegmentsOfDotted(a: string, b: string)
    ensures Segments(a + "." + b) == Segments(a) + Segments(b)
    decreases |a|
  {
    var cut := Cut(a);
    if cut.2 {
      CutAtDot(cut.0, cut.1 + "." + b);
      assert a + "." + b == cut.0 + "." + (cut.1 + "." + b);
      SegmentsOfDotted(cut.1, b);
      assert Segments(a) + Segments(b) == [cut.0] + (Segments(cut.1) + Segments(b));
    } else {
      CutAtDot(a, b);
    }
  }

  lemma {:induction false} JoinOfConcat(a: seq<string>, b: seq<string>)
    requires a != [] && b != []
    ensures Join(a + b) == Join(a) + "." + Join(b)
  {
    if |a| == 1 {
      assert (a + b)[1..] == b;
    } else {
      JoinOfConcat(a[1..], b);
      assert (a + b)[1..] == a[1..] + b;
      assert Join(a + b) == a[0] + "." + (Join(a[1..]) + "." + Join(b));
      assert Join(a) == a[0] + "." + Join(a[1..]);
    }
  }

  lemma DottedPrefixGivesSegments(shorter: string, longer: string)
    requires shorter + "." <= longer
    ensures Segments(shorter) < Segments(longer)
  {
    var rest := longer[|shorter| + 1..];
    assert longer == shorter + "." + rest;
    SegmentsOfDotted(shorter, rest);
  }

  lemma PrefixOfDotted(a: string, b: string, whole: string)
    requires whole == a + "." + b
    ensures a + "." <= whole
  {
  }

  lemma SegmentsGiveDottedPrefix(shorter: string, longer: string)
    requires Segments(shorter) < Segments(longer)
    ensures shorter + "." <= longer
  {
    hide Segments, Join;
    var a, rest := Segments(shorter), Segments(longer)[|Segments(shorter)|..];
    JoinOfSegments(shorter);
    JoinOfSegments(longer);
    assert Segments(longer) == a + rest;
    JoinOfConcat(a, rest);
    PrefixOfDotted(shorter, Join(rest), longer);
  }

  /** The string test "longer starts with shorter and a dot" is the proper
      prefix order on segment lists, for every pair of strings. */
  lemma DottedPrefixIsSegmentPrefix(shorter: string, longer: string)
    ensures shorter + "." <= longer <==> Segments(shorter) < Segments(longer)
  {
    if shorter + "." <= longer { DottedPrefixGivesSegments(shorter, longer); }
    if Segments(shorter) < Segments(longer) { SegmentsGiveDottedPrefix(shorter, longer); }
  }

  /** Distinct strings have distinct segment lists. */
  lemma SegmentsInjective(a: string, b: string)
    requires Segments(a) == Segments(b)
    ensures a == b
  {
    JoinOfSegments(a);
    JoinOfSegments(b);
  }
}
