/**
 * The export file name `waa-<timestamp>-<query>-<subpages>-<subdomains>-
 * <redirects>-<revisits>-<start>-<end>.csv`: each option becomes a fixed token
 * or the placeholder `_`, and every segment goes through `re.sub(r'\W', '_', …)`.
 */
module ExportName {
  import opened Text
  import opened Timestamp
  import opened FormOptions

  const Placeholder: string := "_"
  const Prefix: string := "waa"
  const Extension: string := ".csv"

  /** The fixed token naming an active checkbox. */
  function Token(flag: Flag): (t: string)
    ensures t != "" && t != Placeholder
  {
    match flag
    case Subpages => "subpages_included"
    case Subdomains => "subdomains_included"
    case Redirects => "redirects_filtered"
    case Revisits => "revisits_filtered"
  }

  /** The tokens and the placeholder are made of word characters. */
  lemma TokenAllWord(flag: Flag)
    ensures AllWord(Token(flag)) && AllWord(Placeholder)
  {
    var t := Token(flag);
    assert forall i :: 0 <= i < |t| ==> t[i] == '_' || 'a' <= t[i] <= 'z';
    assert forall i :: 0 <= i < |Placeholder| ==> Placeholder[i] == '_';
  }

  /**
   * `re.sub(r'\W', '_', s)`: scans `s` and replaces each non-word character by
   * one underscore; runs are not collapsed, so the length is kept.
   */
  function Sanitize(s: string): (r: string)
    ensures |r| == |s|
  {
    if s == [] then [] else [if IsWordChar(s[0]) then s[0] else '_'] + Sanitize(s[1..])
  }

  /** Position by position, a word character is kept and any other becomes `_`. */
  lemma {:induction false} SanitizeAt(s: string, i: nat)
    requires i < |s|
    ensures Sanitize(s)[i] == if IsWordChar(s[i]) then s[i] else '_'
  {
    if i > 0 {
      SanitizeAt(s[1..], i - 1);
    }
  }

  /** A sanitized segment holds only word characters, so no `-` and no `.`. */
  lemma SanitizeAllWord(s: string)
    ensures AllWord(Sanitize(s))
    ensures '-' !in Sanitize(s) && '.' !in Sanitize(s)
  {
    var r := Sanitize(s);
    forall i | 0 <= i < |r|
      ensures IsWordChar(r[i]) && r[i] != '-' && r[i] != '.'
    {
      SanitizeAt(s, i);
    }
  }

  /** Sanitizing leaves a text unchanged exactly when it is all word characters. */
  lemma SanitizeFixedPoint(s: string)
    ensures Sanitize(s) == s <==> AllWord(s)
  {
    if AllWord(s) {
      forall i | 0 <= i < |s|
        ensures Sanitize(s)[i] == s[i]
      {
        SanitizeAt(s, i);
      }
    } else if Sanitize(s) == s {
      SanitizeAllWord(s);
    }
  }

  /** `re.sub` works character by character, so it distributes over concatenation. */
  lemma {:induction false} SanitizeAppend(a: string, b: string)
    ensures Sanitize(a + b) == Sanitize(a) + Sanitize(b)
  {
    if a != [] {
      assert (a + b)[1..] == a[1..] + b;
      SanitizeAppend(a[1..], b);
    } else {
      assert a + b == b;
    }
  }

  /** Sanitizing twice is sanitizing once. */
  lemma SanitizeIdempotent(s: string)
    ensures Sanitize(Sanitize(s)) == Sanitize(s)
  {
    SanitizeAllWord(s);
    SanitizeFixedPoint(Sanitize(s));
  }

  /** The segment for a free-text option: the sanitized text, or `_` when it is empty. */
  function TextSegment(raw: string): (seg: string)
    ensures raw == "" ==> seg == Placeholder
    ensures raw != "" ==> seg == Sanitize(raw)
  {
    Sanitize(if raw != "" then raw else Placeholder)
  }

  /**
   * A text segment is non-empty, made of word characters, as long as its text,
   * and equal to it exactly when the text already was a word.
   */
  lemma TextSegmentWord(raw: string)
    ensures var seg := TextSegment(raw);
      seg != "" && AllWord(seg) && |seg| == (if raw == "" then 1 else |raw|) &&
      (seg == raw <==> raw != "" && AllWord(raw))
  {
    SanitizeAllWord(if raw != "" then raw else Placeholder);
    SanitizeFixedPoint(raw);
  }

  /** The segment for a checkbox: its token when ticked, `_` otherwise. */
  function FlagSegment(flag: Flag, raw: string): (seg: string)
    ensures seg == if Truthy(raw) then Token(flag) else Placeholder
  {
    TokenAllWord(flag);
    SanitizeFixedPoint(Token(flag));
    SanitizeFixedPoint(Placeholder);
    Sanitize(if Truthy(raw) then Token(flag) else Placeholder)
  }

  /** The f-string that joins the eight parts of the name. */
  function Assemble(p1: string, p2: string, p3: string, p4: string,
                    p5: string, p6: string, p7: string, p8: string): (name: string)
    ensures |name| == 15 + |p1| + |p2| + |p3| + |p4| + |p5| + |p6| + |p7| + |p8|
  {
    Prefix + "-" + p1 + "-" + p2 + "-" + p3 + "-" + p4 + "-" + p5 + "-" + p6 + "-" + p7 + "-" + p8 + Extension
  }

  /** An assembled name starts with `waa-` and the first part, and ends in `.csv`. */
  lemma AssembleShape(p1: string, p2: string, p3: string, p4: string,
                      p5: string, p6: string, p7: string, p8: string)
    ensures var name := Assemble(p1, p2, p3, p4, p5, p6, p7, p8);
      name[..4] == Prefix + "-" && name[4..4 + |p1|] == p1 && name[|name| - 4..] == Extension
  {
    var rest := "-" + p2 + "-" + p3 + "-" + p4 + "-" + p5 + "-" + p6 + "-" + p7 + "-" + p8;
    assert Assemble(p1, p2, p3, p4, p5, p6, p7, p8) == (Prefix + "-") + p1 + rest + Extension;
  }

  /** The export file name: the timestamp, then the seven option segments in fixed order. */
  function FileName(now: DateTime, f: RawForm): (name: string)
    requires Valid(now)
    ensures |name| > 23 && name[..4] == Prefix + "-" && name[4..19] == Format(now)
    ensures name[|name| - 4..] == Extension
  {
    AssembleShape(Format(now), TextSegment(f.query),
                  FlagSegment(Subpages, f.includeSubpages), FlagSegment(Subdomains, f.includeSubdomains),
                  FlagSegment(Redirects, f.filterRedirects), FlagSegment(Revisits, f.filterRevisits),
                  TextSegment(f.startDate), TextSegment(f.endDate));
    Assemble(Format(now), TextSegment(f.query),
             FlagSegment(Subpages, f.includeSubpages), FlagSegment(Subdomains, f.includeSubdomains),
             FlagSegment(Redirects, f.filterRedirects), FlagSegment(Revisits, f.filterRevisits),
             TextSegment(f.startDate), TextSegment(f.endDate))
  }

  /** The seven option segments of the name, in their fixed order. */
  function Segments(f: RawForm): (segs: seq<string>)
    ensures |segs| == 7
  {
    [TextSegment(f.query),
     FlagSegment(Subpages, f.includeSubpages), FlagSegment(Subdomains, f.includeSubdomains),
     FlagSegment(Redirects, f.filterRedirects), FlagSegment(Revisits, f.filterRevisits),
     TextSegment(f.startDate), TextSegment(f.endDate)]
  }

  /** The position of a checkbox's segment among the seven. */
  function SegmentIndex(flag: Flag): (k: nat)
    ensures 1 <= k <= 4
  {
    match flag
    case Subpages => 1
    case Subdomains => 2
    case Redirects => 3
    case Revisits => 4
  }

  /** The ten pieces of the name: prefix, date, time, seven segments (the last carrying the extension). */
  function Pieces(now: DateTime, f: RawForm): (p: seq<string>)
    requires Valid(now)
    ensures |p| == 10
  {
    var ts, s := Format(now), Segments(f);
    [Prefix, ts[..8], ts[9..], s[0], s[1], s[2], s[3], s[4], s[5], s[6] + Extension]
  }

  /** One step of the f-string: splitting `a-seg` adds `seg` as a last piece. */
  lemma SplitStep(a: string, seg: string)
    requires '-' !in seg
    ensures Split(a + "-" + seg, '-') == Split(a, '-') + [seg]
  {
    assert "-" == ['-'];
    SplitAppend(a, '-', seg);
  }

  /**
   * Splitting an assembled name on `-` gives ten pieces in fixed order when
   * the timestamp has its one dash at index 8 and no segment has a dash.
   */
  lemma {:induction false} AssembleSplit(p1: string, p2: string, p3: string, p4: string,
                                         p5: string, p6: string, p7: string, p8: string)
    requires |p1| == 15 && p1[8] == '-' && '-' !in p1[..8] && '-' !in p1[9..]
    requires '-' !in p2 && '-' !in p3 && '-' !in p4 && '-' !in p5
    requires '-' !in p6 && '-' !in p7 && '-' !in p8
    ensures Split(Assemble(p1, p2, p3, p4, p5, p6, p7, p8), '-') ==
            [Prefix, p1[..8], p1[9..], p2, p3, p4, p5, p6, p7, p8 + Extension]
  {
    var date, time := p1[..8], p1[9..];
    SplitNoSeparator(Prefix, '-');
    var a0 := Prefix + "-" + p1;
    assert a0 == Prefix + "-" + date + "-" + time;
    SplitStep(Prefix, date);
    SplitStep(Prefix + "-" + date, time);
    assert Split(a0, '-') == [Prefix, date, time];
    var a1 := a0 + "-" + p2;
    SplitStep(a0, p2);
    assert Split(a1, '-') == [Prefix, date, time, p2];
    var a2 := a1 + "-" + p3;
    SplitStep(a1, p3);
    assert Split(a2, '-') == [Prefix, date, time, p2, p3];
    var a3 := a2 + "-" + p4;
    SplitStep(a2, p4);
    assert Split(a3, '-') == [Prefix, date, time, p2, p3, p4];
    var a4 := a3 + "-" + p5;
    SplitStep(a3, p5);
    assert Split(a4, '-') == [Prefix, date, time, p2, p3, p4, p5];
    var a5 := a4 + "-" + p6;
    SplitStep(a4, p6);
    assert Split(a5, '-') == [Prefix, date, time, p2, p3, p4, p5, p6];
    var a6 := a5 + "-" + p7;
    SplitStep(a5, p7);
    assert Split(a6, '-') == [Prefix, date, time, p2, p3, p4, p5, p6, p7];
    assert '-' !in p8 + Extension;
    assert a6 + "-" + p8 + Extension == a6 + "-" + (p8 + Extension);
    SplitStep(a6, p8 + Extension);
  }

  /**
   * Splitting the name on `-` gives exactly the ten pieces in their fixed order:
   * no segment contributes a `-` of its own.
   */
  lemma FileNameSplit(now: DateTime, f: RawForm)
    requires Valid(now)
    ensures Split(FileName(now, f), '-') == Pieces(now, f)
  {
    var ts, segs := Format(now), Segments(f);
    TimestampPieces(now);
    SegmentsNoDash(f);
    assert FileName(now, f) == Assemble(ts, segs[0], segs[1], segs[2], segs[3], segs[4], segs[5], segs[6]);
    AssembleSplit(ts, segs[0], segs[1], segs[2], segs[3], segs[4], segs[5], segs[6]);
  }

  /** The date and time halves of the timestamp hold no dash. */
  lemma TimestampPieces(now: DateTime)
    requires Valid(now)
    ensures var ts := Format(now); '-' !in ts[..8] && '-' !in ts[9..] && '.' !in ts
  {
    var ts := Format(now);
    assert forall j :: 0 <= j < 8 ==> ts[..8][j] == ts[j];
    assert forall j :: 0 <= j < 6 ==> ts[9..][j] == ts[j + 9];
  }

  /** No segment holds a dash or a dot. */
  lemma SegmentsNoDash(f: RawForm)
    ensures forall i :: 0 <= i < 7 ==> '-' !in Segments(f)[i] && '.' !in Segments(f)[i] && '/' !in Segments(f)[i]
  {
    forall i | 0 <= i < 7
      ensures '-' !in Segments(f)[i] && '.' !in Segments(f)[i] && '/' !in Segments(f)[i]
    {
      SegmentAllWord(f, i);
      NoDash(Segments(f)[i]);
    }
  }

  /** Every segment is a non-empty text of word characters. */
  lemma SegmentAllWord(f: RawForm, i: nat)
    requires i < 7
    ensures AllWord(Segments(f)[i]) && Segments(f)[i] != ""
  {
    if i == 0 {
      TextSegmentWord(f.query);
    } else if i == 5 {
      TextSegmentWord(f.startDate);
    } else if i == 6 {
      TextSegmentWord(f.endDate);
    } else {
      var flag := if i == 1 then Subpages else if i == 2 then Subdomains else if i == 3 then Redirects else Revisits;
      SegmentOfFlag(f, flag);
      TokenAllWord(flag);
    }
  }

  /** A word-character text has no dash, no dot and no slash. */
  lemma NoDash(s: string)
    requires AllWord(s)
    ensures '-' !in s && '.' !in s && '/' !in s
  {
    assert forall i :: 0 <= i < |s| ==> s[i] != '-' && s[i] != '.' && s[i] != '/';
  }

  /** Appending a dash and a part free of `c` to a text free of `c` keeps it free of `c`. */
  lemma FreeStep(c: char, a: string, p: string)
    requires c != '-' && c !in a && c !in p
    ensures c !in a + "-" + p
  {
    assert multiset(a + "-" + p) == multiset(a) + multiset("-") + multiset(p);
  }

  /** The assembled name before its extension holds no `c` when no part holds one. */
  lemma AssembleBodyFree(c: char, p1: string, p2: string, p3: string, p4: string,
                         p5: string, p6: string, p7: string, p8: string)
    requires c != '-' && c != 'w' && c != 'a'
    requires c !in p1 && c !in p2 && c !in p3 && c !in p4
    requires c !in p5 && c !in p6 && c !in p7 && c !in p8
    ensures c !in Prefix + "-" + p1 + "-" + p2 + "-" + p3 + "-" + p4 + "-" + p5 + "-" + p6 + "-" + p7 + "-" + p8
  {
    var b0 := Prefix;
    assert c !in b0 by { assert b0 == ['w', 'a', 'a']; }
    FreeStep(c, b0, p1); var b1 := b0 + "-" + p1;
    FreeStep(c, b1, p2); var b2 := b1 + "-" + p2;
    FreeStep(c, b2, p3); var b3 := b2 + "-" + p3;
    FreeStep(c, b3, p4); var b4 := b3 + "-" + p4;
    FreeStep(c, b4, p5); var b5 := b4 + "-" + p5;
    FreeStep(c, b5, p6); var b6 := b5 + "-" + p6;
    FreeStep(c, b6, p7); var b7 := b6 + "-" + p7;
    FreeStep(c, b7, p8);
  }

  /** A dot-free text followed by the extension ends in `.csv` and holds one `.`. */
  lemma ExtensionOneDot(body: string)
    requires '.' !in body
    ensures var name := body + Extension;
      name[|name| - 4..] == Extension && multiset(name)['.'] == 1
  {
    assert multiset(body)['.'] == 0;
    assert multiset(Extension)['.'] == 1 by { assert Extension == ['.', 'c', 's', 'v']; }
    assert multiset(body + Extension) == multiset(body) + multiset(Extension);
    assert (body + Extension)[|body|..] == Extension;
  }

  /** An assembled name ends in `.csv` and holds one `.` when no part holds one. */
  lemma AssembleOneDot(p1: string, p2: string, p3: string, p4: string,
                       p5: string, p6: string, p7: string, p8: string)
    requires '.' !in p1 && '.' !in p2 && '.' !in p3 && '.' !in p4
    requires '.' !in p5 && '.' !in p6 && '.' !in p7 && '.' !in p8
    ensures var name := Assemble(p1, p2, p3, p4, p5, p6, p7, p8);
      |name| >= 4 && name[|name| - 4..] == Extension && multiset(name)['.'] == 1
  {
    AssembleBodyFree('.', p1, p2, p3, p4, p5, p6, p7, p8);
    ExtensionOneDot(Prefix + "-" + p1 + "-" + p2 + "-" + p3 + "-" + p4 + "-" + p5 + "-" + p6 + "-" + p7 + "-" + p8);
  }

  /** The name ends with `.csv` and holds exactly one `.`. */
  lemma FileNameShape(now: DateTime, f: RawForm)
    requires Valid(now)
    ensures var name := FileName(now, f);
      |name| >= 4 && name[|name| - 4..] == ".csv" && multiset(name)['.'] == 1
  {
    var ts, segs := Format(now), Segments(f);
    TimestampPieces(now);
    SegmentsNoDash(f);
    assert FileName(now, f) == Assemble(ts, segs[0], segs[1], segs[2], segs[3], segs[4], segs[5], segs[6]);
    AssembleOneDot(ts, segs[0], segs[1], segs[2], segs[3], segs[4], segs[5], segs[6]);
  }

  /** The export name holds no `/`, so it is a single path component. */
  lemma FileNameNoSlash(now: DateTime, f: RawForm)
    requires Valid(now)
    ensures '/' !in FileName(now, f)
  {
    var ts, segs := Format(now), Segments(f);
    assert forall i :: 0 <= i < |ts| ==> ts[i] != '/';
    SegmentsNoDash(f);
    var s0, s1, s2, s3, s4, s5, s6 := segs[0], segs[1], segs[2], segs[3], segs[4], segs[5], segs[6];
    assert FileName(now, f) == Assemble(ts, s0, s1, s2, s3, s4, s5, s6);
    AssembleBodyFree('/', ts, s0, s1, s2, s3, s4, s5, s6);
    var body := Prefix + "-" + ts + "-" + s0 + "-" + s1 + "-" + s2 + "-" + s3 + "-" + s4 + "-" + s5 + "-" + s6;
    assert '/' !in Extension by { assert Extension == ['.', 'c', 's', 'v']; }
    assert multiset(body + Extension) == multiset(body) + multiset(Extension);
  }

  /** The segment a checkbox contributes to the name, looked up by checkbox. */
  lemma SegmentOfFlag(f: RawForm, flag: Flag)
    ensures Segments(f)[SegmentIndex(flag)] == FlagSegment(flag, FlagValue(f, flag))
  {
  }

  /** Pieces 3 to 8 of the name are the first six segments. */
  lemma PieceAt(now: DateTime, f: RawForm, i: nat)
    requires Valid(now) && i < 6
    ensures Pieces(now, f)[i + 3] == Segments(f)[i]
  {
    var p := Pieces(now, f);
    if i == 0 { assert p[3] == Segments(f)[0]; }
    else if i == 1 { assert p[4] == Segments(f)[1]; }
    else if i == 2 { assert p[5] == Segments(f)[2]; }
    else if i == 3 { assert p[6] == Segments(f)[3]; }
    else if i == 4 { assert p[7] == Segments(f)[4]; }
    else { assert p[8] == Segments(f)[5]; }
  }

  /** Changing one checkbox leaves every other segment as it was. */
  lemma OtherSegmentsUnchanged(f: RawForm, flag: Flag, v: string)
    ensures var s, t := Segments(f), Segments(SetFlag(f, flag, v));
      forall i :: 0 <= i < 7 && i != SegmentIndex(flag) ==> s[i] == t[i]
  {
    forall i | 0 <= i < 7 && i != SegmentIndex(flag)
      ensures Segments(f)[i] == Segments(SetFlag(f, flag, v))[i]
    {
      SegmentKept(f, flag, v, i);
    }
  }

  /** The first and the last two segments are those of the query and the dates. */
  lemma TextSegmentsOf(f: RawForm)
    ensures Segments(f)[0] == TextSegment(f.query)
    ensures Segments(f)[5] == TextSegment(f.startDate) && Segments(f)[6] == TextSegment(f.endDate)
  {
  }

  /** Changing one checkbox leaves the segment of a different checkbox as it was. */
  lemma FlagSegmentKept(f: RawForm, flag: Flag, v: string, other: Flag)
    requires other != flag
    ensures Segments(f)[SegmentIndex(other)] == Segments(SetFlag(f, flag, v))[SegmentIndex(other)]
  {
    SegmentOfFlag(f, other);
    SegmentOfFlag(SetFlag(f, flag, v), other);
  }

  /** The checkbox whose segment sits at position `i` (1 to 4). */
  function FlagAt(i: nat): (flag: Flag)
    requires 1 <= i <= 4
    ensures SegmentIndex(flag) == i
  {
    if i == 1 then Subpages else if i == 2 then Subdomains else if i == 3 then Redirects else Revisits
  }

  /** One segment other than the changed checkbox's stays as it was. */
  lemma SegmentKept(f: RawForm, flag: Flag, v: string, i: nat)
    requires i < 7 && i != SegmentIndex(flag)
    ensures Segments(f)[i] == Segments(SetFlag(f, flag, v))[i]
  {
    var g := SetFlag(f, flag, v);
    if 1 <= i <= 4 {
      FlagSegmentKept(f, flag, v, FlagAt(i));
    } else {
      assert g.query == f.query && g.startDate == f.startDate && g.endDate == f.endDate;
      TextSegmentsOf(f);
      TextSegmentsOf(g);
    }
  }

  /** Changing one checkbox changes its segment exactly when the box flips. */
  lemma FlagSegmentFlips(f: RawForm, flag: Flag, v: string)
    ensures var s, t := Segments(f), Segments(SetFlag(f, flag, v));
      s[SegmentIndex(flag)] == t[SegmentIndex(flag)] <==> (Truthy(FlagValue(f, flag)) <==> Truthy(v))
  {
    SegmentOfFlag(f, flag);
    SegmentOfFlag(SetFlag(f, flag, v), flag);
  }

  /**
   * Changing the raw text of one checkbox changes no piece of the name but
   * that checkbox's (the pieces are those of the name split on `-`, by `FileNameSplit`).
   */
  lemma FlagKeepsOtherPieces(now: DateTime, f: RawForm, flag: Flag, v: string)
    requires Valid(now)
    ensures var p, q := Pieces(now, f), Pieces(now, SetFlag(f, flag, v));
      forall i :: 0 <= i < 10 && i != SegmentIndex(flag) + 3 ==> p[i] == q[i]
  {
    forall i | 0 <= i < 10 && i != SegmentIndex(flag) + 3
      ensures Pieces(now, f)[i] == Pieces(now, SetFlag(f, flag, v))[i]
    {
      PieceKept(now, f, flag, v, i);
    }
  }

  /** One piece other than the changed checkbox's stays as it was. */
  lemma PieceKept(now: DateTime, f: RawForm, flag: Flag, v: string, i: nat)
    requires Valid(now) && i < 10 && i != SegmentIndex(flag) + 3
    ensures Pieces(now, f)[i] == Pieces(now, SetFlag(f, flag, v))[i]
  {
    var g := SetFlag(f, flag, v);
    if 3 <= i < 9 {
      PieceAt(now, f, i - 3);
      PieceAt(now, g, i - 3);
      SegmentKept(f, flag, v, i - 3);
    } else if i == 9 {
      SegmentKept(f, flag, v, 6);
      assert Pieces(now, f)[9] == Segments(f)[6] + Extension;
      assert Pieces(now, g)[9] == Segments(g)[6] + Extension;
    }
  }

  /** Changing the raw text of one checkbox changes that checkbox's piece exactly when the box flips. */
  lemma FlagPieceFlips(now: DateTime, f: RawForm, flag: Flag, v: string)
    requires Valid(now)
    ensures var p, q := Pieces(now, f), Pieces(now, SetFlag(f, flag, v));
      p[SegmentIndex(flag) + 3] == q[SegmentIndex(flag) + 3] <==> (Truthy(FlagValue(f, flag)) <==> Truthy(v))
  {
    FlagSegmentFlips(f, flag, v);
    PieceAt(now, f, SegmentIndex(flag));
    PieceAt(now, SetFlag(f, flag, v), SegmentIndex(flag));
  }

  /** Each checkbox piece shows its token exactly when the normalized option is on. */
  lemma FileNameShowsFlags(now: DateTime, f: RawForm, flag: Flag)
    requires Valid(now) && Truthy(f.query)
    ensures var p := Pieces(now, f);
      (p[SegmentIndex(flag) + 3] == Token(flag) <==> FlagOption(Normalize(f).value, flag)) &&
      (p[SegmentIndex(flag) + 3] == Placeholder <==> !FlagOption(Normalize(f).value, flag))
  {
    SegmentOfFlag(f, flag);
    PieceAt(now, f, SegmentIndex(flag));
  }

  /**
   * The name is a function of the time, the three text fields and whether each
   * checkbox is ticked: two forms that agree on those get the same name.
   */
  lemma SameTruthinessSameName(now: DateTime, f: RawForm, g: RawForm)
    requires Valid(now)
    requires f.query == g.query && f.startDate == g.startDate && f.endDate == g.endDate
    requires forall flag :: Truthy(FlagValue(f, flag)) <==> Truthy(FlagValue(g, flag))
    ensures FileName(now, f) == FileName(now, g)
  {
    assert FlagSegment(Subpages, f.includeSubpages) == FlagSegment(Subpages, g.includeSubpages) by {
      assert Truthy(FlagValue(f, Subpages)) <==> Truthy(FlagValue(g, Subpages));
    }
    assert FlagSegment(Subdomains, f.includeSubdomains) == FlagSegment(Subdomains, g.includeSubdomains) by {
      assert Truthy(FlagValue(f, Subdomains)) <==> Truthy(FlagValue(g, Subdomains));
    }
    assert FlagSegment(Redirects, f.filterRedirects) == FlagSegment(Redirects, g.filterRedirects) by {
      assert Truthy(FlagValue(f, Redirects)) <==> Truthy(FlagValue(g, Redirects));
    }
    assert FlagSegment(Revisits, f.filterRevisits) == FlagSegment(Revisits, g.filterRevisits) by {
      assert Truthy(FlagValue(f, Revisits)) <==> Truthy(FlagValue(g, Revisits));
    }
  }

  /** The rewrite of a ticked subpages box to `'subpages'` leaves the name as it was. */
  lemma MarkSubpagesKeepsName(now: DateTime, f: RawForm)
    requires Valid(now)
    ensures FileName(now, MarkSubpages(f)) == FileName(now, f)
  {
    SameTruthinessSameName(now, MarkSubpages(f), f);
  }

  /** The name is not injective in the query: an empty query and `_` collide, as do `a.b` and `a_b`. */
  lemma QueryCollisions(now: DateTime, f: RawForm)
    requires Valid(now)
    ensures FileName(now, f.(query := "")) == FileName(now, f.(query := "_"))
    ensures FileName(now, f.(query := "a.b")) == FileName(now, f.(query := "a_b"))
  {
    assert TextSegment("a.b") == "a_b" == TextSegment("a_b");
  }

  /** The dot of a host name becomes an underscore: `example.com` is named `example_com`. */
  lemma SanitizeDotExample()
    ensures TextSegment("example.com") == "example_com"
  {
  }
}
