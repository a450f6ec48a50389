/**
 The menu categories route (`app/api/categories/route.ts`): `GET` lists the
 categories by display order, falling back to five built-in ones when the
 table does not exist; `POST` derives the category id as a slug of its name;
 `PATCH` writes the body's fields; `DELETE` refuses while menu items still
 use the category.
 */
module CategoriesApi {
  import opened Wrappers
  import opened Text
  import opened JsonValues
  import opened Rows
  import opened Http
  import opened Ordering
  import ListUpdates

  const FetchError := "Error fetching categories"
  const CreateError := "Error creating category"
  const UpdateError := "Error updating category"
  const DeleteError := "Error deleting category"
  const InUseError := "No se puede eliminar una categoría con items. Mueve o elimina los items primero."
  /** PostgreSQL's code for an undefined table. */
  const UndefinedTable := "42P01"
  const DefaultOrder := 99

  // ----- Slugs -----

  /** What remains of a lower-case character after canonical decomposition
      and removal of the combining marks U+0300–U+036F: a Latin-1 letter
      with a diacritic loses it, a combining mark vanishes. */
  function Deaccent(c: char): (r: string)
    ensures |r| <= 1
    ensures '\U{0300}' <= c <= '\U{036F}' <==> r == []
  {
    if '\U{0300}' <= c <= '\U{036F}' then ""
    else if '\U{00E0}' <= c <= '\U{00E5}' then "a"
    else if c == '\U{00E7}' then "c"
    else if '\U{00E8}' <= c <= '\U{00EB}' then "e"
    else if '\U{00EC}' <= c <= '\U{00EF}' then "i"
    else if c == '\U{00F1}' then "n"
    else if '\U{00F2}' <= c <= '\U{00F6}' then "o"
    else if '\U{00F9}' <= c <= '\U{00FC}' then "u"
    else if c == '\U{00FD}' || c == '\U{00FF}' then "y"
    else [c]
  }

  /** `toLowerCase().normalize('NFD').replace(/[̀-ͯ]/g, '')`. */
  function Fold(s: string): (r: string)
    ensures |r| <= |s|
  {
    if s == [] then [] else Deaccent(LowerChar(s[0])) + Fold(s[1..])
  }

  /** The characters `[a-z0-9]`. */
  predicate IsSlugChar(c: char) {
    'a' <= c <= 'z' || '0' <= c <= '9'
  }

  predicate SlugAlphabet(s: string) {
    forall i :: 0 <= i < |s| ==> IsSlugChar(s[i]) || s[i] == '-'
  }

  predicate NoDoubleDash(s: string) {
    forall i :: 0 <= i < |s| - 1 ==> !(s[i] == '-' && s[i + 1] == '-')
  }

  predicate NoEdgeDash(s: string) {
    s != [] ==> s[0] != '-' && s[|s| - 1] != '-'
  }

  /** The letters and digits of a text, in order. */
  function Alnum(s: string): string {
    ListUpdates.Filter(s, IsSlugChar)
  }

  lemma AlnumCons(c: char, s: string)
    ensures Alnum([c] + s) == (if IsSlugChar(c) then [c] else []) + Alnum(s)
  {
    assert ([c] + s)[0] == c && ([c] + s)[1..] == s;
  }

  /** `replace(/[^a-z0-9]+/g, '-')`: every run of other characters becomes
      one dash. `inRun` says the character before `s` already opened a run. */
  function Collapse(s: string, inRun: bool): (r: string)
    ensures SlugAlphabet(r) && NoDoubleDash(r)
    ensures inRun ==> r == [] || r[0] != '-'
    ensures Alnum(r) == Alnum(s)
  {
    if s == [] then []
    else
      var rest := Collapse(s[1..], !IsSlugChar(s[0]));
      AlnumCons(s[0], s[1..]);
      assert s == [s[0]] + s[1..];
      if IsSlugChar(s[0]) then
        AlnumCons(s[0], rest);
        [s[0]] + rest
      else if inRun then rest
      else
        AlnumCons('-', rest);
        "-" + rest
  }

  /** `replace(/(^-|-$)/g, '')`: one leading and one trailing dash go. */
  function TrimDashes(s: string): (r: string)
    ensures SlugAlphabet(s) ==> SlugAlphabet(r)
    ensures NoDoubleDash(s) ==> NoDoubleDash(r) && NoEdgeDash(r)
    ensures NoEdgeDash(s) ==> r == s
    ensures Alnum(r) == Alnum(s)
  {
    var t :=
      if s != [] && s[0] == '-' then
        assert s == [s[0]] + s[1..];
        AlnumCons('-', s[1..]);
        s[1..]
      else s;
    if t != [] && t[|t| - 1] == '-' then
      var u := t[..|t| - 1];
      assert t == u + [t[|t| - 1]];
      ListUpdates.FilterConcat(u, ['-'], IsSlugChar);
      u
    else t
  }

  /** The category id `POST` derives from a name. */
  function Slug(name: string): (r: string)
    ensures SlugAlphabet(r) && NoDoubleDash(r) && NoEdgeDash(r)
    ensures Alnum(r) == Alnum(Fold(name))
  {
    TrimDashes(Collapse(Fold(name), false))
  }

  // ----- The slug as words joined by dashes -----

  /** A non-empty run of `[a-z0-9]` characters. */
  predicate IsWord(w: string) {
    w != [] && forall i :: 0 <= i < |w| ==> IsSlugChar(w[i])
  }

  /** The maximal runs of `[a-z0-9]` characters of a text, in order. */
  function Words(s: string): (ws: seq<string>)
    ensures s != [] && IsSlugChar(s[0]) ==> ws != []
  {
    if s == [] then []
    else
      var ws := Words(s[1..]);
      if !IsSlugChar(s[0]) then ws
      else if s[1..] != [] && IsSlugChar(s[1]) then [[s[0]] + ws[0]] + ws[1..]
      else [[s[0]]] + ws
  }

  /** Every word is a non-empty run of letters and digits. */
  lemma {:induction false} WordsAreWords(s: string)
    ensures forall i :: 0 <= i < |Words(s)| ==> IsWord(Words(s)[i])
  {
    if s != [] {
      WordsAreWords(s[1..]);
      var ws := Words(s[1..]);
      if IsSlugChar(s[0]) && s[1..] != [] && IsSlugChar(s[1]) {
        assert IsWord(ws[0]);
        var w := [s[0]] + ws[0];
        assert forall i :: 0 < i < |w| ==> w[i] == ws[0][i - 1];
        assert IsWord(w);
        assert Words(s) == [w] + ws[1..];
      } else if IsSlugChar(s[0]) {
        assert Words(s) == [[s[0]]] + ws;
      }
    }
  }

  /** A text without words has no letter or digit. */
  lemma {:induction false} NoWordsNoSlugChar(s: string)
    requires Words(s) == []
    ensures forall i :: 0 <= i < |s| ==> !IsSlugChar(s[i])
  {
    if s != [] {
      NoWordsNoSlugChar(s[1..]);
      assert forall i :: 1 <= i < |s| ==> s[i] == s[1..][i - 1];
    }
  }

  /** The dash `Collapse` writes before the first word when the text opens
      with other characters. */
  function Lead(s: string, inRun: bool): string {
    if !inRun && s != [] && !IsSlugChar(s[0]) then "-" else ""
  }

  /** The dash `Collapse` writes after the last word when the text closes
      with other characters. */
  function Trail(s: string): string {
    if Words(s) != [] && s != [] && !IsSlugChar(s[|s| - 1]) then "-" else ""
  }

  lemma JoinFirstWord(c: char, w: string, rest: seq<string>)
    ensures Join([[c] + w] + rest, "-") == [c] + Join([w] + rest, "-")
  {
    if rest != [] {
      assert ([[c] + w] + rest)[1..] == rest;
      assert ([w] + rest)[1..] == rest;
    }
  }

  lemma JoinSingleWord(c: char, ws: seq<string>)
    ensures Join([[c]] + ws, "-") == if ws == [] then [c] else [c] + "-" + Join(ws, "-")
  {
    if ws != [] {
      assert ([[c]] + ws)[1..] == ws;
    }
  }

  /** Joined words are empty exactly when there are none, and otherwise
      open and close with a letter or digit. */
  lemma {:induction false} JoinedWordsEdges(ws: seq<string>)
    requires forall i :: 0 <= i < |ws| ==> IsWord(ws[i])
    ensures var j := Join(ws, "-");
      && (j == [] <==> ws == [])
      && (j != [] ==> IsSlugChar(j[0]) && IsSlugChar(j[|j| - 1]))
  {
    if |ws| == 1 {
      assert IsWord(ws[0]);
    } else if |ws| > 1 {
      JoinedWordsEdges(ws[1..]);
      assert IsWord(ws[0]);
      var j := Join(ws, "-");
      var rest := Join(ws[1..], "-");
      assert j == ws[0] + "-" + rest;
      assert j[0] == ws[0][0];
      assert j[|j| - 1] == rest[|rest| - 1];
    }
  }

  lemma CollapseStep(s: string, inRun: bool)
    requires s != []
    ensures Collapse(s, inRun) ==
      if IsSlugChar(s[0]) then [s[0]] + Collapse(s[1..], false)
      else if inRun then Collapse(s[1..], true)
      else "-" + Collapse(s[1..], true)
  {}

  lemma CollapseSlugStep(s: string, inRun: bool)
    requires s != [] && IsSlugChar(s[0])
    ensures Collapse(s, inRun) == [s[0]] + Collapse(s[1..], false)
  {}

  lemma WordsGoOn(s: string)
    requires |s| >= 2 && IsSlugChar(s[0]) && IsSlugChar(s[1])
    ensures Words(s[1..]) != [] && Words(s) == [[s[0]] + Words(s[1..])[0]] + Words(s[1..])[1..]
  {}

  lemma WordsStep(s: string)
    requires s != []
    ensures !IsSlugChar(s[0]) ==> Words(s) == Words(s[1..])
    ensures IsSlugChar(s[0]) && (s[1..] == [] || !IsSlugChar(s[1])) ==> Words(s) == [[s[0]]] + Words(s[1..])
    ensures IsSlugChar(s[0]) && s[1..] != [] && IsSlugChar(s[1]) ==>
      Words(s) == [[s[0]] + Words(s[1..])[0]] + Words(s[1..])[1..]
  {}

  /** `Collapse` writes the words joined by single dashes, with one dash in
      front for leading other characters (unless a run is already open) and
      one behind for trailing other characters. */
  lemma {:induction false} CollapseIsJoinedWords(s: string, inRun: bool)
    ensures Collapse(s, inRun) == Lead(s, inRun) + Join(Words(s), "-") + Trail(s)
    decreases |s|
  {
    if s == [] {
      CollapseEmpty(inRun);
    } else if !IsSlugChar(s[0]) {
      CollapseIsJoinedWords(s[1..], true);
      CollapseOther(s, inRun);
    } else if s[1..] == [] {
      CollapseLastChar(s, inRun);
    } else if IsSlugChar(s[1]) {
      CollapseIsJoinedWords(s[1..], false);
      CollapseWordGoesOn(s, inRun);
    } else {
      CollapseIsJoinedWords(s[1..], false);
      CollapseWordEnds(s, inRun);
    }
  }

  lemma CollapseOther(s: string, inRun: bool)
    requires s != [] && !IsSlugChar(s[0])
    requires Collapse(s[1..], true) == Lead(s[1..], true) + Join(Words(s[1..]), "-") + Trail(s[1..])
    ensures Collapse(s, inRun) == Lead(s, inRun) + Join(Words(s), "-") + Trail(s)
  {
    var t := s[1..];
    CollapseStep(s, inRun);
    WordsStep(s);
    if t != [] {
      TrailStep(s);
    }
    SkipOther(Collapse(s, inRun), Lead(s, inRun), Collapse(t, true), Join(Words(t), "-"), Trail(t),
      Words(s), Words(t), Trail(s));
  }

  lemma CollapseLastChar(s: string, inRun: bool)
    requires |s| == 1 && IsSlugChar(s[0])
    ensures Collapse(s, inRun) == Lead(s, inRun) + Join(Words(s), "-") + Trail(s)
  {
    CollapseStep(s, inRun);
    WordsStep(s);
    assert Collapse(s[1..], false) == [];
    SingleChar(Collapse(s, inRun), Lead(s, inRun), s[0], Words(s), Trail(s));
  }

  lemma CollapseWordGoesOn(s: string, inRun: bool)
    requires |s| >= 2 && IsSlugChar(s[0]) && IsSlugChar(s[1])
    requires Collapse(s[1..], false) == Lead(s[1..], false) + Join(Words(s[1..]), "-") + Trail(s[1..])
    ensures Collapse(s, inRun) == Lead(s, inRun) + Join(Words(s), "-") + Trail(s)
  {
    var t := s[1..];
    CollapseSlugStep(s, inRun);
    WordsGoOn(s);
    TrailKept(s);
    LeadOfWord(t, false);
    LeadOfWord(s, inRun);
    ExtendWord(Collapse(s, inRun), Lead(s, inRun), s[0], Words(t), Words(s), Collapse(t, false),
      Lead(t, false), Trail(t), Trail(s));
  }

  lemma CollapseWordEnds(s: string, inRun: bool)
    requires |s| >= 2 && IsSlugChar(s[0]) && !IsSlugChar(s[1])
    requires Collapse(s[1..], false) == Lead(s[1..], false) + Join(Words(s[1..]), "-") + Trail(s[1..])
    ensures Collapse(s, inRun) == Lead(s, inRun) + Join(Words(s), "-") + Trail(s)
  {
    var t := s[1..];
    CollapseStep(s, inRun);
    WordsStep(s);
    if Words(t) == [] {
      TrailAfterLastWord(s);
    } else {
      TrailStep(s);
    }
    EndWord(Collapse(s, inRun), Lead(s, inRun), s[0], Words(t), Words(s), Collapse(t, false), Trail(s), Trail(t));
  }

  lemma SkipOther(cs: string, lead: string, ct: string, j: string, trailT: string,
                  ws: seq<string>, wt: seq<string>, trailS: string)
    requires cs == lead + ct && ct == "" + j + trailT
    requires ws == wt && trailS == trailT && j == Join(wt, "-")
    ensures cs == lead + Join(ws, "-") + trailS
  {}

  lemma CollapseEmpty(inRun: bool)
    ensures Collapse([], inRun) == Lead([], inRun) + Join(Words([]), "-") + Trail([])
  {
    assert Collapse([], inRun) == [];
  }

  /** Removing the first character keeps the closing dash while words
      remain on both sides. */
  lemma TrailStep(s: string)
    requires |s| >= 2
    ensures (Words(s) != [] <==> Words(s[1..]) != []) ==> Trail(s) == Trail(s[1..])
  {
    assert s[|s| - 1] == s[1..][|s| - 2];
  }

  lemma LeadOfWord(s: string, inRun: bool)
    requires s != [] && IsSlugChar(s[0])
    ensures Lead(s, inRun) == ""
  {}

  lemma TrailKept(s: string)
    requires |s| >= 2 && Words(s) != [] && Words(s[1..]) != []
    ensures Trail(s) == Trail(s[1..])
  {
    assert s[|s| - 1] == s[1..][|s| - 2];
  }

  lemma TrailAfterLastWord(s: string)
    requires |s| >= 2 && Words(s) != [] && Words(s[1..]) == []
    ensures Trail(s) == "-" && Trail(s[1..]) == ""
  {
    NoWordsNoSlugChar(s[1..]);
    assert s[|s| - 1] == s[1..][|s| - 2];
  }

  lemma SingleChar(cs: string, lead: string, c: char, ws: seq<string>, trail: string)
    requires cs == [c] && lead == "" && ws == [[c]] && trail == ""
    ensures cs == lead + Join(ws, "-") + trail
  {}

  lemma ExtendWord(cs: string, lead: string, c: char, ws: seq<string>, w: seq<string>, ct: string,
                   leadT: string, trailT: string, trailS: string)
    requires cs == [c] + ct && lead == "" && leadT == "" && trailS == trailT
    requires ws != [] && w == [[c] + ws[0]] + ws[1..]
    requires ct == leadT + Join(ws, "-") + trailT
    ensures cs == lead + Join(w, "-") + trailS
  {
    JoinFirstWord(c, ws[0], ws[1..]);
    assert [ws[0]] + ws[1..] == ws;
  }

  lemma EndWord(cs: string, lead: string, c: char, ws: seq<string>, w: seq<string>, ct: string,
                trailS: string, trailT: string)
    requires cs == [c] + ct && lead == ""
    requires w == [[c]] + ws
    requires ct == "-" + Join(ws, "-") + trailT
    requires ws == [] ==> trailS == "-" && trailT == ""
    requires ws != [] ==> trailS == trailT
    ensures cs == lead + Join(w, "-") + trailS
  {
    JoinSingleWord(c, ws);
  }

  /** Dropping one dash at each end leaves the joined words. */
  lemma TrimDashesOfJoined(lead: string, j: string, trail: string)
    requires lead == "" || lead == "-"
    requires trail == "" || trail == "-"
    requires j == [] ==> trail == ""
    requires j != [] ==> j[0] != '-' && j[|j| - 1] != '-'
    ensures TrimDashes(lead + j + trail) == j
  {
    if j == [] {
      assert lead + j + trail == lead;
    } else {
      TrimJoinedBody(lead, j, trail);
    }
  }

  lemma TrimJoinedBody(lead: string, j: string, trail: string)
    requires lead == "" || lead == "-"
    requires trail == "" || trail == "-"
    requires j != [] && j[0] != '-' && j[|j| - 1] != '-'
    ensures TrimDashes(lead + j + trail) == j
  {
    var x := lead + j + trail;
    var t := j + trail;
    assert x == lead + t;
    assert (if x != [] && x[0] == '-' then x[1..] else x) == t;
    assert t != [] && (t[|t| - 1] == '-' <==> trail == "-");
    if trail == "-" {
      assert t[..|t| - 1] == j;
    }
    TrimDashesSteps(x, t);
  }

  /** `TrimDashes` as its two steps: drop a leading dash, then a trailing
      one. */
  lemma TrimDashesSteps(x: string, t: string)
    requires t == if x != [] && x[0] == '-' then x[1..] else x
    ensures TrimDashes(x) == if t != [] && t[|t| - 1] == '-' then t[..|t| - 1] else t
  {}

  /** The slug is the letter and digit runs of the folded name joined by
      single dashes. */
  lemma SlugIsJoinedWords(name: string)
    ensures Slug(name) == Join(Words(Fold(name)), "-")
  {
    var f := Fold(name);
    CollapseIsJoinedWords(f, false);
    JoinedShape(f);
    TrimDashesOfJoined(Lead(f, false), Join(Words(f), "-"), Trail(f));
  }

  /** The pieces `Collapse` writes have the shape `TrimDashes` expects: at
      most one dash at either end, and joined words without edge dashes. */
  lemma JoinedShape(f: string)
    ensures Lead(f, false) == "" || Lead(f, false) == "-"
    ensures Trail(f) == "" || Trail(f) == "-"
    ensures Join(Words(f), "-") == [] ==> Trail(f) == ""
    ensures var j := Join(Words(f), "-");
      j != [] ==> j[0] != '-' && j[|j| - 1] != '-'
  {
    WordsAreWords(f);
    JoinedWordsEdges(Words(f));
  }

  /** A text without letters or digits has the empty slug, and only such a
      text does. */
  lemma SlugEmptyIff(name: string)
    ensures Slug(name) == [] <==> Alnum(Fold(name)) == []
  {
  }

  lemma {:induction false} FoldSlugText(s: string)
    requires SlugAlphabet(s)
    ensures Fold(s) == s
  {
    if s != [] {
      FoldSlugText(s[1..]);
      assert s == [s[0]] + s[1..];
    }
  }

  lemma {:induction false} CollapseSlugText(s: string, inRun: bool)
    requires SlugAlphabet(s) && NoDoubleDash(s)
    requires inRun ==> s == [] || s[0] != '-'
    ensures Collapse(s, inRun) == s
  {
    if s != [] {
      assert NoDoubleDash(s[1..]) by {
        forall i | 0 <= i < |s[1..]| - 1 ensures !(s[1..][i] == '-' && s[1..][i + 1] == '-') {
          assert s[1..][i] == s[i + 1] && s[1..][i + 1] == s[i + 2];
        }
      }
      CollapseSlugText(s[1..], !IsSlugChar(s[0]));
      assert s == [s[0]] + s[1..];
    }
  }

  /** Slugging a slug changes nothing. */
  lemma SlugIdempotent(name: string)
    ensures Slug(Slug(name)) == Slug(name)
  {
    var r := Slug(name);
    FoldSlugText(r);
    CollapseSlugText(r, false);
  }

  lemma FoldCons(c: char, t: string)
    ensures Fold([c] + t) == Deaccent(LowerChar(c)) + Fold(t)
  {
    assert ([c] + t)[0] == c && ([c] + t)[1..] == t;
  }

  /** Accents are dropped and capitals lowered. */
  lemma SlugOfCocteles()
    ensures Slug("Cócteles") == "cocteles"
  {
    FoldOfCocteles();
    CoctelesIsSlugText();
    CollapseSlugText("cocteles", false);
    assert Collapse(Fold("Cócteles"), false) == "cocteles";
  }

  lemma CoctelesIsSlugText()
    ensures SlugAlphabet("cocteles") && NoDoubleDash("cocteles") && NoEdgeDash("cocteles")
  {
    var s := "cocteles";
    assert forall i :: 0 <= i < |s| ==> 'a' <= s[i] <= 'z';
  }

  lemma FoldOfCocteles()
    ensures Fold("Cócteles") == "cocteles"
  {
    FoldOfCoctelesHead();
    FoldSlugText("cteles");
  }

  lemma FoldOfCoctelesHead()
    ensures Fold("Cócteles") == "co" + Fold("cteles")
  {
    var t := "cteles";
    var u := ['\U{00F3}'] + t;
    assert "Cócteles" == ['C'] + u;
    assert Deaccent(LowerChar('C')) == "c";
    assert Deaccent(LowerChar('\U{00F3}')) == "o";
    FoldCons('C', u);
    FoldCons('\U{00F3}', t);
    var ft := Fold(t);
    assert Fold(u) == "o" + ft;
    assert Fold("Cócteles") == "c" + ("o" + ft);
    assert "c" + ("o" + ft) == "co" + ft;
  }

  // ----- POST -----

  datatype NewCategory = NewCategory(id: string, name: string, displayOrder: Json)

  /** `POST /api/categories`: a name that is not a string makes
      `toLowerCase` throw, which the handler reports as a 500. */
  function Post(body: Object, insertOk: bool): (r: Reply<NewCategory>)
    ensures r.Ok? <==> (Get(body, "name").Some? && Get(body, "name").value.JStr? && insertOk)
    ensures r.Fail? ==> r == Fail(500, CreateError)
    ensures r.Ok? ==> Get(body, "name") == Some(JStr(r.body.name))
    ensures r.Ok? ==> r.body.id == Slug(r.body.name)
    ensures r.Ok? ==> SlugAlphabet(r.body.id) && NoDoubleDash(r.body.id) && NoEdgeDash(r.body.id)
    ensures r.Ok? ==> Alnum(r.body.id) == Alnum(Fold(r.body.name))
    ensures r.Ok? && Truthy(Get(body, "display_order")) ==> Some(r.body.displayOrder) == Get(body, "display_order")
    ensures r.Ok? && !Truthy(Get(body, "display_order")) ==> r.body.displayOrder == JNum(DefaultOrder)
  {
    match Get(body, "name")
    case Some(JStr(name)) =>
      if insertOk then Ok(NewCategory(Slug(name), name, Or(Get(body, "display_order"), JNum(DefaultOrder))))
      else Fail(500, CreateError)
    case _ => Fail(500, CreateError)
  }

  /** An explicit display order of 0 is falsy and becomes 99. */
  lemma ZeroOrderBecomes99(name: string)
    ensures Post(map["name" := JStr(name), "display_order" := JNum(0)], true).body.displayOrder == JNum(99)
  {}

  // ----- GET -----

  /** What the category query gave: the rows (`null` possible), or an error
      code. */
  datatype CategoryQuery = Listed(rows: Option<seq<Category>>) | Failed(code: string)

  function OrderKey(c: Category): seq<Key> {
    [Int(c.displayOrder)]
  }

  const DefaultCategories := [
    Category("cocktails", "Cócteles", 1),
    Category("shots", "Shots", 2),
    Category("bottles", "Botellas", 3),
    Category("food", "Comida", 4),
    Category("specials", "Especiales", 5)]

  /** The built-in categories are numbered 1 to 5 in order, with distinct
      ids. */
  lemma DefaultCategoriesOrdered()
    ensures |DefaultCategories| == 5
    ensures forall i :: 0 <= i < 5 ==> DefaultCategories[i].displayOrder == i + 1
    ensures forall i, j :: 0 <= i < j < 5 ==> DefaultCategories[i].id != DefaultCategories[j].id
    ensures SortedBy(DefaultCategories, OrderKey)
  {}

  /** `GET /api/categories`. */
  function List(q: CategoryQuery): (r: Reply<seq<Category>>)
    ensures q.Failed? && q.code == UndefinedTable ==> r == Ok(DefaultCategories)
    ensures q.Failed? && q.code != UndefinedTable ==> r == Fail(500, FetchError)
    ensures q.Listed? ==> r.Ok? && SortedBy(r.body, OrderKey)
    ensures q.Listed? ==> multiset(r.body) == multiset(q.rows.GetOr([]))
  {
    match q
    case Failed(code) => if code == UndefinedTable then Ok(DefaultCategories) else Fail(500, FetchError)
    case Listed(rows) => Ok(SortBy(rows.GetOr([]), OrderKey))
  }

  // ----- PATCH -----

  /** `PATCH /api/categories`: no check on the id; every field but `id` is
      written. */
  function Patch(body: Object, updateOk: bool): (r: Reply<Change>)
    ensures r.Ok? <==> updateOk
    ensures r.Fail? ==> r == Fail(500, UpdateError)
    ensures r.Ok? ==> r.body.id == Get(body, "id") && Get(r.body.fields, "id").None?
    ensures r.Ok? ==> forall k :: k != "id" ==> Get(r.body.fields, k) == Get(body, k)
  {
    if updateOk then Ok(Change(Get(body, "id"), Rest(body, "id"))) else Fail(500, UpdateError)
  }

  // ----- DELETE -----

  /** A menu item files under the category. */
  predicate InUse(items: seq<MenuItem>, id: string) {
    exists i :: 0 <= i < |items| && items[i].category == id
  }

  lemma InUseIffListed(items: seq<MenuItem>, id: string)
    ensures InUse(items, id) <==> ItemsInCategory(items, id) != []
  {
    var r := ItemsInCategory(items, id);
    if InUse(items, id) {
      var i :| 0 <= i < |items| && items[i].category == id;
      assert items[i] in r;
    }
    if r != [] {
      assert r[0] in items;
      var i :| 0 <= i < |items| && items[i] == r[0];
      assert items[i].category == id;
    }
  }

  /** `DELETE /api/categories`: `items` is the menu table, or `None` when
      the items query failed, in which case the guard lets the delete go
      ahead. The id is compared as the text the query carries. */
  function Delete(body: Object, items: Option<seq<MenuItem>>, deleteOk: bool): (r: Reply<string>)
    ensures r.IsBadRequest() <==> items.Some? && InUse(items.value, ToJsString(Get(body, "id")))
    ensures r.IsBadRequest() ==> r.error == InUseError
    ensures r.Ok? <==> !(items.Some? && InUse(items.value, ToJsString(Get(body, "id")))) && deleteOk
    ensures r.Ok? ==> r.body == ToJsString(Get(body, "id"))
  {
    var id := ToJsString(Get(body, "id"));
    var hits := if items.Some? then InUseIffListed(items.value, id); Take(ItemsInCategory(items.value, id), 1) else [];
    if hits != [] then Fail(400, InUseError)
    else if !deleteOk then Fail(500, DeleteError)
    else Ok(id)
  }
}
