/**
  The text that is hashed.  A symbol is a character, a whole SHA-256 digest, a number or
  the ISO rendering of an instant, so digests, numbers and timestamps are injective and
  hold no separator, while the `|`-join of the fields is the real join.
 */
module HashText {
  datatype Sym = Ch(c: char) | Digest(content: Text) | Instant(ms: int) | Number(value: real)
  type Text = seq<Sym>

  const BAR: Sym := Ch('|')

  function Str(s: string): (t: Text)
    ensures |t| == |s|
    ensures forall i :: 0 <= i < |s| ==> t[i] == Ch(s[i])
  {
    seq(|s|, i requires 0 <= i < |s| => Ch(s[i]))
  }

  predicate Clean(t: Text)
  {
    BAR !in t
  }

  function Join(fields: seq<Text>): (t: Text)
  {
    if fields == [] then []
    else if |fields| == 1 then fields[0]
    else fields[0] + [BAR] + Join(fields[1..])
  }

  /** A clean head is cut off at the first separator. */
  lemma HeadIsDetermined(a: Text, b: Text, x: Text, y: Text)
    requires Clean(a) && Clean(b) && a + [BAR] + x == b + [BAR] + y
    ensures a == b && x == y
  {
    var s := a + [BAR] + x;
    assert s[|a|] == BAR && s[|b|] == BAR;
    assert forall i :: 0 <= i < |a| ==> s[i] == a[i] && s[i] != BAR;
    assert forall i :: 0 <= i < |b| ==> s[i] == b[i] && s[i] != BAR;
    assert a == s[..|a|] && b == s[..|b|];
    assert x == s[|a| + 1..] && y == s[|b| + 1..];
  }

  predicate HeaderClean(fields: seq<Text>)
  {
    forall i :: 0 <= i < |fields| - 1 ==> Clean(fields[i])
  }

  /** With every field but the last free of the separator the join is injective. */
  lemma {:induction false} JoinInjective(a: seq<Text>, b: seq<Text>)
    requires |a| == |b| && HeaderClean(a) && HeaderClean(b) && Join(a) == Join(b)
    ensures a == b
  {
    if |a| > 1 {
      HeadIsDetermined(a[0], b[0], Join(a[1..]), Join(b[1..]));
      JoinInjective(a[1..], b[1..]);
      assert a == [a[0]] + a[1..] && b == [b[0]] + b[1..];
    }
  }

  lemma {:induction false} JoinSnoc(a: seq<Text>, last: Text)
    requires a != []
    ensures Join(a + [last]) == Join(a) + [BAR] + last
  {
    if |a| == 1 {
      assert (a + [last])[1..] == [last];
    } else {
      JoinSnoc(a[1..], last);
      assert (a + [last])[1..] == a[1..] + [last];
    }
  }

  /** A common last field does not matter, and a common front does not either. */
  lemma JoinCancels(a: seq<Text>, b: seq<Text>, last: Text)
    requires a != [] && b != [] && Join(a + [last]) == Join(b + [last])
    ensures Join(a) == Join(b)
  {
    JoinSnoc(a, last);
    JoinSnoc(b, last);
    var s := Join(a) + [BAR] + last;
    assert Join(a) == s[..|s| - |last| - 1] && Join(b) == s[..|s| - |last| - 1];
  }

  lemma JoinLastInjective(a: seq<Text>, x: Text, y: Text)
    requires a != [] && Join(a + [x]) == Join(a + [y])
    ensures x == y
  {
    JoinSnoc(a, x);
    JoinSnoc(a, y);
    var s := Join(a) + [BAR] + x;
    assert x == s[|Join(a)| + 1..] && y == s[|Join(a)| + 1..];
  }

  /******* When a joined text has one reading only *******/

  function Bars(t: Text): (n: nat)
  {
    if t == [] then 0 else (if t[0] == BAR then 1 else 0) + Bars(t[1..])
  }

  lemma {:induction false} BarsConcat(a: Text, b: Text)
    ensures Bars(a + b) == Bars(a) + Bars(b)
  {
    if a == [] {
      assert a + b == b;
    } else {
      assert (a + b)[1..] == a[1..] + b;
      BarsConcat(a[1..], b);
    }
  }

  lemma {:induction false} CleanIffNoBars(t: Text)
    ensures Clean(t) <==> Bars(t) == 0
  {
    if t != [] {
      CleanIffNoBars(t[1..]);
      assert t == [t[0]] + t[1..];
    }
  }

  function FieldBars(fields: seq<Text>): (n: nat)
  {
    if fields == [] then 0 else Bars(fields[0]) + FieldBars(fields[1..])
  }

  lemma {:induction false} JoinBars(fields: seq<Text>)
    requires fields != []
    ensures Bars(Join(fields)) == |fields| - 1 + FieldBars(fields)
  {
    if |fields| == 1 {
      assert FieldBars(fields[1..]) == 0;
    } else {
      JoinBars(fields[1..]);
      BarsConcat(fields[0] + [BAR], Join(fields[1..]));
      BarsConcat(fields[0], [BAR]);
      assert Bars([BAR]) == 1;
    }
  }

  predicate AllClean(fields: seq<Text>)
  {
    forall i :: 0 <= i < |fields| ==> Clean(fields[i])
  }

  lemma {:induction false} AllCleanIffNoFieldBars(fields: seq<Text>)
    ensures AllClean(fields) <==> FieldBars(fields) == 0
  {
    if fields != [] {
      CleanIffNoBars(fields[0]);
      AllCleanIffNoFieldBars(fields[1..]);
      assert fields == [fields[0]] + fields[1..];
    }
  }

  /** No other list of as many fields joins to the same text. */
  ghost predicate UniqueReading(fields: seq<Text>)
  {
    forall other: seq<Text> :: |other| == |fields| && Join(other) == Join(fields) ==> other == fields
  }

  lemma CleanHasUniqueReading(fields: seq<Text>)
    requires fields != [] && AllClean(fields)
    ensures UniqueReading(fields)
  {
    forall other: seq<Text> | |other| == |fields| && Join(other) == Join(fields)
      ensures other == fields
    {
      JoinBars(fields);
      JoinBars(other);
      AllCleanIffNoFieldBars(fields);
      AllCleanIffNoFieldBars(other);
      JoinInjective(fields, other);
    }
  }

  lemma {:induction false} JoinSplit(a: seq<Text>, b: seq<Text>)
    requires a != [] && b != []
    ensures Join(a + b) == Join(a) + [BAR] + Join(b)
  {
    if |a| == 1 {
      assert (a + b)[1..] == b;
    } else {
      JoinSplit(a[1..], b);
      assert (a + b)[1..] == a[1..] + b;
    }
  }

  lemma SplitAtBar(t: Text) returns (x: Text, y: Text)
    requires !Clean(t)
    ensures t == x + [BAR] + y
  {
    var i :| 0 <= i < |t| && t[i] == BAR;
    x, y := t[..i], t[i + 1..];
  }

  /** Moving the boundary between two neighbouring fields across a separator. */
  lemma ShiftBoundary(front: seq<Text>, x: Text, y: Text, z: Text, rest: seq<Text>)
    ensures Join(front + [x + [BAR] + y, z] + rest) == Join(front + [x, y + [BAR] + z] + rest)
  {
    var p, q := [x + [BAR] + y, z], [x, y + [BAR] + z];
    assert p[1..] == [z] && q[1..] == [y + [BAR] + z];
    assert Join(p) == x + [BAR] + y + [BAR] + z == Join(q);
    if rest != [] {
      JoinSplit(p, rest);
      JoinSplit(q, rest);
    } else {
      assert p + rest == p && q + rest == q;
    }
    if front != [] {
      JoinSplit(front, p + rest);
      JoinSplit(front, q + rest);
      assert front + (p + rest) == front + p + rest && front + (q + rest) == front + q + rest;
    } else {
      assert front + p + rest == p + rest && front + q + rest == q + rest;
    }
  }

  lemma SecondReading(fields: seq<Text>, front: seq<Text>, pair: seq<Text>, other: seq<Text>, rest: seq<Text>)
    requires fields == front + pair + rest && |pair| == |other| && pair != other
    requires Join(front + other + rest) == Join(front + pair + rest)
    ensures !UniqueReading(fields)
  {
    var reading := front + other + rest;
    assert reading[|front|..|front| + |other|] == other && fields[|front|..|front| + |pair|] == pair;
  }

  lemma DirtyHasTwoReadings(fields: seq<Text>)
    requires |fields| >= 2 && !AllClean(fields)
    ensures !UniqueReading(fields)
  {
    var i :| 0 <= i < |fields| && !Clean(fields[i]);
    var x, y := SplitAtBar(fields[i]);
    if i + 1 < |fields| {
      ShiftBoundary(fields[..i], x, y, fields[i + 1], fields[i + 2..]);
      SecondReading(fields, fields[..i], [x + [BAR] + y, fields[i + 1]], [x, y + [BAR] + fields[i + 1]],
          fields[i + 2..]);
    } else {
      ShiftBoundary(fields[..i - 1], fields[i - 1], x, y, []);
      SecondReading(fields, fields[..i - 1], [fields[i - 1], x + [BAR] + y], [fields[i - 1] + [BAR] + x, y], []);
    }
  }

  /** The hashed text determines the fields if and only if no field holds the separator. */
  lemma UniqueReadingIffAllClean(fields: seq<Text>)
    requires |fields| >= 2
    ensures UniqueReading(fields) <==> AllClean(fields)
  {
    if AllClean(fields) {
      CleanHasUniqueReading(fields);
    } else {
      DirtyHasTwoReadings(fields);
    }
  }

  /******* Cutting a text at its separators *******/

  /** One more symbol at the front of the first segment. */
  function Glue(c: Sym, segments: seq<Text>): (glued: seq<Text>)
    requires segments != []
    ensures glued != []
  {
    [[c] + segments[0]] + segments[1..]
  }

  function Segments(t: Text): (segments: seq<Text>)
    ensures segments != []
  {
    if t == [] then [[]]
    else if t[0] == BAR then [[]] + Segments(t[1..])
    else Glue(t[0], Segments(t[1..]))
  }

  lemma GlueFront(c: Sym, p: seq<Text>, q: seq<Text>)
    requires p != []
    ensures Glue(c, p + q) == Glue(c, p) + q
  {
  }

  lemma {:induction false} SegmentsSplit(a: Text, b: Text)
    ensures Segments(a + [BAR] + b) == Segments(a) + Segments(b)
  {
    var t := a + [BAR] + b;
    if a == [] {
      assert t[1..] == b;
    } else {
      SegmentsSplit(a[1..], b);
      assert t[1..] == a[1..] + [BAR] + b && t[0] == a[0];
      var p, q := Segments(a[1..]), Segments(b);
      if a[0] == BAR {
        assert [[]] + (p + q) == [[]] + p + q;
      } else {
        GlueFront(a[0], p, q);
      }
    }
  }

  lemma JoinGlue(c: Sym, segments: seq<Text>)
    requires segments != []
    ensures Join(Glue(c, segments)) == [c] + Join(segments)
  {
    assert Glue(c, segments)[1..] == segments[1..];
  }

  /** The segments put together again are the text, so they determine it. */
  lemma {:induction false} JoinSegments(t: Text)
    ensures Join(Segments(t)) == t
  {
    if t != [] {
      var rest := Segments(t[1..]);
      JoinSegments(t[1..]);
      if t[0] == BAR {
        assert ([[]] + rest)[1..] == rest;
      } else {
        JoinGlue(t[0], rest);
      }
    }
  }

  lemma SegmentsInjective(a: Text, b: Text)
    requires Segments(a) == Segments(b)
    ensures a == b
  {
    JoinSegments(a);
    JoinSegments(b);
  }

  lemma {:induction false} CleanIsOneSegment(t: Text)
    requires Clean(t)
    ensures Segments(t) == [t]
  {
    if t != [] {
      CleanIsOneSegment(t[1..]);
      assert t == [t[0]] + t[1..];
    }
  }

  lemma SegmentsOfSix(f: seq<Text>)
    requires |f| == 6
    ensures Segments(Join(f)) ==
      Segments(f[0]) + (Segments(f[1]) + (Segments(f[2]) + (Segments(f[3]) + (Segments(f[4]) + Segments(f[5])))))
  {
    assert Join(f[4..]) == f[4] + [BAR] + f[5];
    assert f[3..][1..] == f[4..] && f[2..][1..] == f[3..] && f[1..][1..] == f[2..];
    SegmentsSplit(f[4], f[5]);
    SegmentsSplit(f[3], Join(f[4..]));
    SegmentsSplit(f[2], Join(f[3..]));
    SegmentsSplit(f[1], Join(f[2..]));
    SegmentsSplit(f[0], Join(f[1..]));
  }

  lemma CutFront(s: seq<Text>, x: seq<Text>, w: seq<Text>, n: nat)
    requires s + x == w && |s| == n
    ensures n <= |w| && s == w[..n] && x == w[n..]
  {
  }

  lemma ThirdOf(s0: seq<Text>, s1: seq<Text>, s2: seq<Text>, rest: seq<Text>, w: seq<Text>)
    requires s0 + (s1 + (s2 + rest)) == w && s2 != []
    ensures |s0| + |s1| + |s2| + |rest| == |w| && s2[0] == w[|s0| + |s1|]
  {
    CutFront(s0, s1 + (s2 + rest), w, |s0|);
    CutFront(s1, s2 + rest, w[|s0|..], |s1|);
    assert (s2 + rest)[0] == s2[0];
  }

  /** Seven segments, the third and fourth empty, shared out to six fields of which the third is not an empty text. */
  lemma LoneGrouping(s0: seq<Text>, s1: seq<Text>, s2: seq<Text>, s3: seq<Text>, s4: seq<Text>, s5: seq<Text>,
      w: seq<Text>)
    requires |w| == 7 && w[2] == [] && w[3] == []
    requires s0 + (s1 + (s2 + (s3 + (s4 + s5)))) == w
    requires s0 != [] && s1 != [] && s2 != [] && s3 != [] && s4 != [] && s5 != []
    requires |s2| == 1 ==> s2[0] != []
    ensures s0 == [w[0]] && s1 == [w[1]] && s2 == [[], []] && s3 == [w[4]] && s4 == [w[5]] && s5 == [w[6]]
  {
    var last := s3 + (s4 + s5);
    ThirdOf(s0, s1, s2, last, w);
    assert |s0| == 1 && |s1| == 1 && |s2| == 2 && |last| == 3;
    CutFront(s0, s1 + (s2 + last), w, 1);
    CutFront(s1, s2 + last, w[1..], 1);
    CutFront(s2, last, w[2..], 2);
    CutFront(s3, s4 + s5, last, 1);
    CutFront(s4, s5, last[1..], 1);
    assert last == [w[4], w[5], w[6]];
  }
}
