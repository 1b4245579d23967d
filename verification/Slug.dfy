/** Slugs: the flag-driven scan shared by src/topology/labels.rs and src/topology/lldp.rs, and the
    split-and-join it comes to. */
module Slug {
  import opened Text

  function ToLower(c: char): char {
    if 'A' <= c <= 'Z' then (c as int + 32) as char else c
  }

  /** Characters a slug keeps. */
  predicate Kept(c: char) {
    'a' <= c <= 'z' || 'A' <= c <= 'Z' || '0' <= c <= '9' || c == '.' || c == '_'
  }

  // What a slug is: lowercase, cut at every character not kept, non-empty pieces, single dashes

  function Pieces(s: string): (r: seq<string>)
    ensures r != []
  {
    if s == [] then [""]
    else
      var p, c := Pieces(s[..|s| - 1]), ToLower(s[|s| - 1]);
      if Kept(c) then p[..|p| - 1] + [p[|p| - 1] + [c]] else p + [""]
  }

  function NonEmpty(pieces: seq<string>): seq<string> {
    if pieces == [] then []
    else
      var last := pieces[|pieces| - 1];
      NonEmpty(pieces[..|pieces| - 1]) + if last == "" then [] else [last]
  }

  function Slug(s: string): string {
    Join(NonEmpty(Pieces(s)), "-")
  }

  /** The version for labels never gives an empty slug. */
  function LabelSlug(s: string): string {
    if Slug(s) == "" then "unknown" else Slug(s)
  }

  // How the program computes it

  function TrimStart(s: string): string {
    if s != [] && s[0] == '-' then TrimStart(s[1..]) else s
  }

  function TrimEnd(s: string): string {
    if s != [] && s[|s| - 1] == '-' then TrimEnd(s[..|s| - 1]) else s
  }

  function Trim(s: string): string {
    TrimEnd(TrimStart(s))
  }

  /** Growing the last piece grows the joined string. */
  lemma JoinGrow(parts: seq<string>, p: string, c: char)
    ensures Join(parts + [p + [c]], "-") == Join(parts + [p], "-") + [c]
  {
    JoinSnoc(parts, p, "-");
    JoinSnoc(parts, p + [c], "-");
  }

  lemma NonEmptySnoc(pieces: seq<string>, p: string)
    ensures NonEmpty(pieces + [p]) == NonEmpty(pieces) + if p == "" then [] else [p]
  {
  }

  predicate EndsInDash(s: string) {
    s != "" && s[|s| - 1] == '-'
  }

  /** The text scanned before trimming: runs of other characters squashed to one dash. */
  function Scanned(s: string): string {
    if s == [] then ""
    else
      var out, c := Scanned(s[..|s| - 1]), ToLower(s[|s| - 1]);
      if Kept(c) then out + [c] else if EndsInDash(out) then out else out + "-"
  }

  method Scan(s: string) returns (out: string)
    ensures out == Scanned(s)
  {
    LowerTwice('-');
    out := "";
    var lastDash := false;
    for i := 0 to |s|
      invariant out == Scanned(s[..i]) && lastDash == EndsInDash(out)
    {
      var c := ToLower(s[i]);
      assert s[..i + 1][..i] == s[..i];
      if Kept(c) {
        out := out + [c];
        lastDash := false;
      } else if !lastDash {
        out := out + "-";
        lastDash := true;
      }
    }
    assert s[..|s|] == s;
  }

  lemma PieceStep(s: string, c: char)
    ensures var p := Pieces(s);
      Pieces(s + [c]) == if Kept(ToLower(c)) then p[..|p| - 1] + [p[|p| - 1] + [ToLower(c)]] else p + [""]
  {
  }

  // Shape of a slug

  ghost predicate GoodPiece(p: string) {
    p != "" && forall c | c in p :: Kept(c) && ToLower(c) == c
  }

  lemma LowerTwice(c: char)
    ensures ToLower(ToLower(c)) == ToLower(c)
    ensures !Kept('-') && ToLower('-') == '-'
  {
  }

  lemma GoodGrows(p: string, c: char)
    requires (p == "" || GoodPiece(p)) && Kept(ToLower(c))
    ensures GoodPiece(p + [ToLower(c)])
  {
  }

  lemma {:induction false} PiecesAreGood(s: string)
    ensures forall p | p in Pieces(s) :: p == "" || GoodPiece(p)
    ensures forall p | p in NonEmpty(Pieces(s)) :: GoodPiece(p)
  {
    hide Kept, ToLower, GoodPiece;
    if s != [] {
      var init, c := s[..|s| - 1], s[|s| - 1];
      var q := Pieces(init);
      PiecesAreGood(init);
      assert s == init + [c];
      PieceStep(init, c);
      assert q[|q| - 1] in q;
      if Kept(ToLower(c)) {
        GoodGrows(q[|q| - 1], c);
      }
    }
    NonEmptyKeeps(Pieces(s));
  }

  lemma {:induction false} NonEmptyKeeps(pieces: seq<string>)
    ensures forall p :: p in NonEmpty(pieces) <==> p in pieces && p != ""
  {
    if pieces != [] {
      var k := |pieces| - 1;
      NonEmptyKeeps(pieces[..k]);
      assert pieces == pieces[..k] + [pieces[k]];
    }
  }

  /** Joined pieces use kept lowercase characters and dashes, with no dash at either end and no
      two together. */
  ghost predicate WellFormed(slug: string) {
    && (forall i | 0 <= i < |slug| :: slug[i] == '-' || (Kept(slug[i]) && ToLower(slug[i]) == slug[i]))
    && (slug != "" ==> slug[0] != '-' && slug[|slug| - 1] != '-')
    && (forall i | 0 <= i < |slug| - 1 :: slug[i] != '-' || slug[i + 1] != '-')
  }

  lemma GoodPieceHasNoDash(p: string)
    requires GoodPiece(p)
    ensures forall i | 0 <= i < |p| :: p[i] != '-'
  {
    LowerTwice('-');
    assert forall i | 0 <= i < |p| :: p[i] in p;
  }

  lemma WellFormedSnoc(a: string, p: string)
    requires WellFormed(a) && a != "" && GoodPiece(p)
    ensures WellFormed(a + "-" + p)
  {
    hide Kept, ToLower;
    GoodPieceHasNoDash(p);
    var r := a + "-" + p;
    forall i | 0 <= i < |r|
      ensures r[i] == '-' || (Kept(r[i]) && ToLower(r[i]) == r[i])
      ensures i < |r| - 1 ==> r[i] != '-' || r[i + 1] != '-'
    {
      if i > |a| {
        assert r[i] == p[i - |a| - 1] && r[i] in p;
      }
    }
  }

  lemma {:induction false} JoinedIsWellFormed(parts: seq<string>)
    requires forall p | p in parts :: GoodPiece(p)
    ensures WellFormed(Join(parts, "-"))
    ensures Join(parts, "-") == "" <==> parts == []
  {
    if parts != [] {
      var k := |parts| - 1;
      var init, last := parts[..k], parts[k];
      assert parts == init + [last];
      JoinSnoc(init, last, "-");
      JoinedIsWellFormed(init);
      GoodPieceHasNoDash(last);
      if init == [] {
        assert forall i | 0 <= i < |last| :: last[i] in last;
      } else {
        WellFormedSnoc(Join(init, "-"), last);
      }
    }
  }

  /** What a label value may hold. */
  predicate InLabel(c: char) {
    'a' <= c <= 'z' || '0' <= c <= '9' || c == '.' || c == '_' || c == '-'
  }

  lemma WellFormedInLabel(slug: string)
    requires WellFormed(slug)
    ensures forall i | 0 <= i < |slug| :: InLabel(slug[i])
  {
  }

  lemma SlugIsWellFormed(s: string)
    ensures WellFormed(Slug(s)) && WellFormed(LabelSlug(s)) && LabelSlug(s) != ""
    ensures forall i | 0 <= i < |Slug(s)| :: InLabel(Slug(s)[i])
    ensures forall i | 0 <= i < |LabelSlug(s)| :: InLabel(LabelSlug(s)[i])
  {
    PiecesAreGood(s);
    JoinedIsWellFormed(NonEmpty(Pieces(s)));
    assert WellFormed("unknown");
    hide WellFormed, InLabel, Pieces;
    WellFormedInLabel(Slug(s));
    WellFormedInLabel(LabelSlug(s));
  }

  lemma {:induction false} TrimEndKeeps(s: string)
    requires s == "" || s[|s| - 1] != '-'
    ensures TrimEnd(s) == s && TrimEnd(s + "-") == s
  {
  }

  lemma WellFormedTrims(slug: string, tail: string)
    requires WellFormed(slug) && tail in {"", "-"} && (slug == "" ==> tail == "")
    ensures Trim(slug + tail) == slug && Trim("-" + (slug + tail)) == slug
  {
    hide Kept, ToLower;
    TrimEndKeeps(slug);
    assert slug + "" == slug;
    assert TrimStart(slug + tail) == slug + tail;
    assert ("-" + (slug + tail))[1..] == slug + tail;
  }

  function Framed(leading: bool, body: string, trailing: bool): string {
    var tail := if trailing && body != "" then "-" else "";
    if leading then "-" + (body + tail) else body + tail
  }

  /** The scanned text is the slug, with perhaps a dash at either end: in front if the text began
      with a character not kept, behind if it ended with one. */
  lemma {:induction false} ScannedIsFramedSlug(s: string) returns (leading: bool)
    ensures Scanned(s) == Framed(leading, Slug(s), Pieces(s)[|Pieces(s)| - 1] == "")
    ensures Slug(s) == "" ==> leading == (s != "")
  {
    if s == [] {
      leading := false;
      EmptySlug();
    } else {
      hide *;
      var init, c := s[..|s| - 1], s[|s| - 1];
      assert s == init + [c];
      var before := ScannedIsFramedSlug(init);
      PieceStep(init, c);
      if Kept(ToLower(c)) {
        leading := before;
        KeptStep(init, c, before);
      } else {
        leading := before || init == "";
        SquashedStep(init, c, before);
      }
    }
  }

  /** What one more kept character does to the slug. */
  lemma SlugGrows(s: string, c: char)
    requires Kept(ToLower(c))
    ensures var d, last := ToLower(c), Pieces(s)[|Pieces(s)| - 1];
      && Pieces(s + [c])[|Pieces(s + [c])| - 1] != ""
      && Slug(s + [c]) ==
        if last != "" then Slug(s) + [d] else if Slug(s) == "" then [d] else Slug(s) + "-" + [d]
    ensures Pieces(s)[|Pieces(s)| - 1] != "" ==> Slug(s) != ""
  {
    hide Kept, ToLower, Join;
    var p, d := Pieces(s), ToLower(c);
    var init, last := p[..|p| - 1], p[|p| - 1];
    assert p == init + [last];
    PieceStep(s, c);
    NonEmptySnoc(init, last);
    NonEmptySnoc(init, last + [d]);
    SlugIsEmpty(s);
    var ps := NonEmpty(init);
    assert Pieces(s + [c]) == init + [last + [d]];
    assert NonEmpty(Pieces(s + [c])) == ps + [last + [d]];
    if last == "" {
      assert ps + [] == ps && last + [d] == [d];
      JoinSnoc(ps, [d], "-");
    } else {
      JoinGrow(ps, last, d);
    }
  }

  lemma FrameGrows(leading: bool, body: string, trailing: bool, d: char, grown: string)
    requires grown == if !trailing then body + [d] else if body == "" then [d] else body + "-" + [d]
    ensures Framed(leading, body, trailing) + [d] == Framed(leading, grown, false)
  {
  }

  lemma ScannedStep(s: string, c: char)
    ensures Scanned(s + [c]) ==
      if Kept(ToLower(c)) then Scanned(s) + [ToLower(c)]
      else if EndsInDash(Scanned(s)) then Scanned(s) else Scanned(s) + "-"
  {
  }

  lemma KeptStep(s: string, c: char, leading: bool)
    requires Kept(ToLower(c))
    requires Scanned(s) == Framed(leading, Slug(s), Pieces(s)[|Pieces(s)| - 1] == "")
    ensures Scanned(s + [c]) == Framed(leading, Slug(s + [c]), Pieces(s + [c])[|Pieces(s + [c])| - 1] == "")
    ensures Slug(s + [c]) != ""
  {
    hide Kept, ToLower, Slug, Scanned, Framed, Pieces;
    SlugGrows(s, c);
    ScannedStep(s, c);
    FrameGrows(leading, Slug(s), Pieces(s)[|Pieces(s)| - 1] == "", ToLower(c), Slug(s + [c]));
  }

  lemma SlugIsEmpty(s: string)
    ensures Slug(s) == "" <==> NonEmpty(Pieces(s)) == []
  {
  }

  /** What one more character that is not kept does to the slug: nothing. */
  lemma SlugStays(s: string, c: char)
    requires !Kept(ToLower(c))
    ensures Slug(s + [c]) == Slug(s) && Pieces(s + [c])[|Pieces(s + [c])| - 1] == ""
    ensures Slug(s) == "" ==> Pieces(s)[|Pieces(s)| - 1] == ""
  {
    hide Kept, ToLower, Join;
    var p := Pieces(s);
    assert p == p[..|p| - 1] + [p[|p| - 1]];
    PieceStep(s, c);
    NonEmptySnoc(p, "");
    NonEmptySnoc(p[..|p| - 1], p[|p| - 1]);
    assert NonEmpty(p) + [] == NonEmpty(p);
    SlugIsEmpty(s);
  }

  lemma FrameSquashes(leading: bool, body: string, trailing: bool)
    requires WellFormed(body) && (body == "" ==> trailing)
    ensures var f := Framed(leading, body, trailing);
      && (body != "" ==> (EndsInDash(f) <==> trailing))
      && (body == "" ==> f == if leading then "-" else "")
      && (body != "" && !trailing ==> f + "-" == Framed(leading, body, true))
  {
  }

  lemma SquashedStep(s: string, c: char, leading: bool)
    requires !Kept(ToLower(c))
    requires Scanned(s) == Framed(leading, Slug(s), Pieces(s)[|Pieces(s)| - 1] == "")
    requires Slug(s) == "" ==> leading == (s != "")
    ensures Slug(s + [c]) == Slug(s)
    ensures Scanned(s + [c])
      == Framed(leading || s == "", Slug(s + [c]), Pieces(s + [c])[|Pieces(s + [c])| - 1] == "")
  {
    hide Kept, ToLower, Slug, Scanned, Framed, Pieces, WellFormed;
    SlugStays(s, c);
    ScannedStep(s, c);
    SlugIsWellFormed(s);
    var trailing := Pieces(s)[|Pieces(s)| - 1] == "";
    FrameSquashes(leading, Slug(s), trailing);
    FrameSquashes(true, Slug(s), true);
    if s == "" {
      EmptySlug();
    }
  }

  lemma EmptySlug()
    ensures Slug("") == "" && Scanned("") == ""
  {
  }

  /** The scan refines the split and join, for every string. */
  method Slugify(s: string) returns (r: string)
    ensures r == Slug(s)
  {
    var out := Scan(s);
    r := Trim(out);
    ghost var leading := ScannedIsFramedSlug(s);
    ghost var trailing := Pieces(s)[|Pieces(s)| - 1] == "";
    SlugIsWellFormed(s);
    WellFormedTrims(Slug(s), if trailing && Slug(s) != "" then "-" else "");
  }

  method SlugifyLabel(s: string) returns (r: string)
    ensures r == LabelSlug(s)
  {
    r := Slugify(s);
    if r == "" {
      r := "unknown";
    }
  }

  // Slugging twice

  /** A list whose last piece has grown by `p`. */
  function LastGrown(q: seq<string>, p: string): (r: seq<string>)
    requires q != []
    ensures r != []
  {
    q[..|q| - 1] + [q[|q| - 1] + p]
  }

  lemma LastGrownTwice(q: seq<string>, p: string, c: char)
    requires q != []
    ensures LastGrown(LastGrown(q, p), [c]) == LastGrown(q, p + [c]) && LastGrown(q, "") == q
  {
    var r := LastGrown(q, p);
    assert r[..|r| - 1] == q[..|q| - 1] && r[|r| - 1] == q[|q| - 1] + p;
    assert (q[|q| - 1] + p) + [c] == q[|q| - 1] + (p + [c]);
    assert q[|q| - 1] + "" == q[|q| - 1];
  }

  lemma {:induction false} PiecesOfKept(s: string, p: string)
    requires GoodPiece(p) || p == ""
    ensures Pieces(s + p) == LastGrown(Pieces(s), p)
  {
    hide Kept, ToLower, Pieces;
    if p == "" {
      assert s + p == s;
      LastGrownTwice(Pieces(s), "", '-');
    } else {
      var init, c := p[..|p| - 1], p[|p| - 1];
      assert p == init + [c] && c in p;
      PiecesOfKept(s, init);
      PieceStep(s + init, c);
      assert s + p == (s + init) + [c];
      LastGrownTwice(Pieces(s), init, c);
    }
  }

  lemma {:induction false} PiecesOfJoined(parts: seq<string>)
    requires forall p | p in parts :: GoodPiece(p)
    ensures Pieces(Join(parts, "-")) == if parts == [] then [""] else parts
  {
    hide Kept, ToLower;
    if parts != [] {
      var k := |parts| - 1;
      var init, last := parts[..k], parts[k];
      assert parts == init + [last];
      PiecesOfJoined(init);
      JoinSnoc(init, last, "-");
      var s := Join(init, "-");
      if init == [] {
        PiecesOfKept("", last);
        assert "" + last == last;
      } else {
        LowerTwice('-');
        PieceStep(s, '-');
        PiecesOfKept(s + "-", last);
        assert s + ['-'] == s + "-";
        assert "" + last == last;
      }
    }
  }

  lemma {:induction false} NonEmptyOfGood(parts: seq<string>)
    requires forall i | 0 <= i < |parts| :: parts[i] != ""
    ensures NonEmpty(parts) == parts
  {
    if parts != [] {
      var init, last := parts[..|parts| - 1], parts[|parts| - 1];
      assert parts == init + [last];
      NonEmptyOfGood(init);
    }
  }

  /** A slug is its own slug. */
  lemma SlugTwice(s: string)
    ensures Slug(Slug(s)) == Slug(s) && LabelSlug(LabelSlug(s)) == LabelSlug(s)
  {
    hide Kept, ToLower;
    var parts := NonEmpty(Pieces(s));
    PiecesAreGood(s);
    PiecesOfJoined(parts);
    assert forall i | 0 <= i < |parts| :: parts[i] in parts;
    NonEmptyOfGood(parts);
    JoinedIsWellFormed(parts);
    UnknownIsASlug();
  }

  lemma UnknownIsGood()
    ensures GoodPiece("unknown")
  {
  }

  /** One piece of kept lowercase characters is its own slug. */
  lemma PieceIsASlug(p: string)
    requires GoodPiece(p)
    ensures Slug(p) == p
  {
    hide Kept, ToLower;
    PiecesOfKept("", p);
    assert "" + p == p;
    assert Pieces(p) == [p];
    NonEmptyOfGood([p]);
  }

  lemma UnknownIsASlug()
    ensures Slug("unknown") == "unknown" && Slug("") == ""
  {
    hide Kept, ToLower, GoodPiece;
    UnknownIsGood();
    PieceIsASlug("unknown");
    assert NonEmpty(Pieces("")) == [];
  }

  // What a slug keeps

  /** The letters, digits, dots and underscores of a text, in lower case. */
  function Letters(s: string): string {
    if s == "" then ""
    else
      var c := s[|s| - 1];
      Letters(s[..|s| - 1])
      + if 'a' <= c <= 'z' || '0' <= c <= '9' || c == '.' || c == '_' then [c]
        else if 'A' <= c <= 'Z' then [(c as int - 'A' as int + 'a' as int) as char] else ""
  }

  lemma {:induction false} LettersConcat(a: string, b: string)
    ensures Letters(a + b) == Letters(a) + Letters(b)
  {
    if b == "" {
      assert a + b == a;
    } else {
      assert (a + b)[..|a + b| - 1] == a + b[..|b| - 1];
      LettersConcat(a, b[..|b| - 1]);
    }
  }

  lemma LettersOfOne(c: char)
    ensures Letters([c]) == if Kept(ToLower(c)) then [ToLower(c)] else ""
    ensures Letters("-") == "" && (Kept(ToLower(c)) ==> Letters([ToLower(c)]) == [ToLower(c)])
  {
  }

  lemma {:induction false} ScanKeepsLetters(s: string)
    ensures Letters(Scanned(s)) == Letters(s)
  {
    hide Letters, Kept, ToLower;
    if s != "" {
      var init, c := s[..|s| - 1], s[|s| - 1];
      assert s == init + [c];
      ScanKeepsLetters(init);
      LettersConcat(init, [c]);
      LettersOfOne(c);
      LettersConcat(Scanned(init), [ToLower(c)]);
      LettersConcat(Scanned(init), "-");
    }
  }

  /** A slug loses no letter, digit, dot or underscore, adds none and keeps their order. */
  lemma SlugKeepsLetters(s: string)
    ensures Letters(Slug(s)) == Letters(s)
  {
    hide Scanned, Slug, Pieces, Letters;
    ScanKeepsLetters(s);
    LettersOfOne('-');
    var leading := ScannedIsFramedSlug(s);
    var body := Slug(s);
    LettersConcat(body, "-");
    LettersConcat("-", body);
    LettersConcat("-", body + "-");
    assert body + "" == body;
  }
}
