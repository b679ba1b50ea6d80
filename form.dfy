/**
 * The form handling of the recommendations route (app/routes/recommendations.py, lines 15-30):
 * the comma-separated state list and the seven priority sliders, read from the posted form.
 */
module RouteForm {
  import opened Options

  /** A posted form: field name to the text the browser sent. */
  type Form = map<string, string>

  /** `str.isspace`: the characters `str.strip()` removes. */
  predicate IsSpace(c: char)
  {
    || c == ' ' || ('\t' <= c <= '\r') || ('\U{1C}' <= c <= '\U{1F}') || c == '\U{85}' || c == '\U{A0}'
    || c == '\U{1680}' || ('\U{2000}' <= c <= '\U{200A}') || c == '\U{2028}' || c == '\U{2029}'
    || c == '\U{202F}' || c == '\U{205F}' || c == '\U{3000}'
  }

  /** `lstrip()`: the longest suffix of `s` that does not start with a space. */
  function StripStart(s: string): (r: string)
    ensures |r| <= |s| && r == s[|s| - |r|..]
    ensures forall k :: 0 <= k < |s| - |r| ==> IsSpace(s[k])
    ensures r == [] || !IsSpace(r[0])
  {
    if s == [] || !IsSpace(s[0]) then s else StripStart(s[1..])
  }

  /** `rstrip()`: the longest prefix of `s` that does not end with a space. */
  function StripEnd(s: string): (r: string)
    ensures |r| <= |s| && r == s[..|r|]
    ensures forall k :: |r| <= k < |s| ==> IsSpace(s[k])
    ensures r == [] || !IsSpace(r[|r| - 1])
  {
    if s == [] || !IsSpace(s[|s| - 1]) then s else StripEnd(s[..|s| - 1])
  }

  /** `strip()`: both ends. */
  function Strip(s: string): (r: string)
    ensures |r| <= |s|
    ensures r == [] || (!IsSpace(r[0]) && !IsSpace(r[|r| - 1]))
  {
    StripEnd(StripStart(s))
  }

  /** A string with no space at either end is its own strip. */
  lemma StripTrimmed(s: string)
    requires s == [] || (!IsSpace(s[0]) && !IsSpace(s[|s| - 1]))
    ensures Strip(s) == s
  {
    assert StripStart(s) == s;
    assert StripEnd(s) == s;
  }

  /** Stripping twice strips no more than once. */
  lemma StripIdempotent(s: string)
    ensures Strip(Strip(s)) == Strip(s)
  {
    var r := Strip(s);
    assert r == [] || (!IsSpace(r[0]) && !IsSpace(r[|r| - 1]));
    StripTrimmed(r);
  }

  /** A string strips to nothing exactly when it is all spaces. */
  lemma StripEmptyIff(s: string)
    ensures Strip(s) == [] <==> forall k :: 0 <= k < |s| ==> IsSpace(s[k])
  {
  }

  /** `str.upper` on one character; letters outside a-z are left alone. */
  function UpperChar(c: char): char
  {
    if 'a' <= c <= 'z' then (c as int - 32) as char else c
  }

  function Upper(s: string): (r: string)
    ensures |r| == |s|
    ensures forall k :: 0 <= k < |s| ==> r[k] == UpperChar(s[k])
  {
    seq(|s|, k requires 0 <= k < |s| => UpperChar(s[k]))
  }

  /** Upper-casing leaves no lower-case letter, so doing it again changes nothing. */
  lemma UpperIdempotent(s: string)
    ensures Upper(Upper(s)) == Upper(s)
    ensures forall k :: 0 <= k < |s| ==> !('a' <= Upper(s)[k] <= 'z')
  {
  }

  /** Upper-casing keeps spaces and commas where they are, so it keeps a stripped string stripped. */
  lemma UpperKeepsShape(s: string)
    ensures forall k :: 0 <= k < |s| ==> (IsSpace(Upper(s)[k]) <==> IsSpace(s[k]))
    ensures forall k :: 0 <= k < |s| ==> (Upper(s)[k] == ',' <==> s[k] == ',')
  {
  }

  /** `s.split(',')`: the pieces between commas, one more than there are commas. */
  function Split(s: string): (ps: seq<string>)
    ensures |ps| >= 1
    ensures forall p :: p in ps ==> ',' !in p
  {
    if s == [] then [""]
    else
      var rest := Split(s[1..]);
      if s[0] == ',' then [""] + rest else [[s[0]] + rest[0]] + rest[1..]
  }

  /** `','.join(ps)`. */
  function Join(ps: seq<string>): string
  {
    if ps == [] then ""
    else if |ps| == 1 then ps[0]
    else ps[0] + "," + Join(ps[1..])
  }

  /** Joining the pieces of a split gives back the string. */
  lemma {:induction false} JoinSplit(s: string)
    ensures Join(Split(s)) == s
  {
    if s != [] {
      var rest := Split(s[1..]);
      JoinSplit(s[1..]);
      if s[0] == ',' {
        assert Join([""] + rest) == "" + "," + Join(rest);
      } else if |rest| == 1 {
        assert Split(s) == [[s[0]] + rest[0]];
      } else {
        var ps := Split(s);
        assert ps[1..] == rest[1..];
        assert Join(rest) == rest[0] + "," + Join(rest[1..]);
        assert Join(ps) == ([s[0]] + rest[0]) + "," + Join(rest[1..]);
      }
    }
  }

  /** Splitting the join of comma-free pieces gives back the pieces. */
  lemma {:induction false} SplitJoin(ps: seq<string>)
    requires |ps| >= 1
    requires forall p :: p in ps ==> ',' !in p
    ensures Split(Join(ps)) == ps
  {
    if |ps| == 1 {
      SplitFree(ps[0]);
    } else {
      SplitJoin(ps[1..]);
      SplitPrefix(ps[0], Join(ps[1..]));
    }
  }

  /** A comma-free string is one piece. */
  lemma {:induction false} SplitFree(p: string)
    requires ',' !in p
    ensures Split(p) == [p]
  {
    if p != [] {
      SplitFree(p[1..]);
      assert [p[0]] + p[1..] == p;
    }
  }

  /** A comma-free piece before a comma becomes the first piece of the split. */
  lemma {:induction false} SplitPrefix(p: string, s: string)
    requires ',' !in p
    ensures Split(p + "," + s) == [p] + Split(s)
  {
    if p == [] {
      assert p + "," + s == [','] + s;
      assert (p + "," + s)[1..] == s;
    } else {
      SplitPrefix(p[1..], s);
      assert (p + "," + s)[1..] == p[1..] + "," + s;
      assert [p[0]] + p[1..] == p;
    }
  }

  /** A state code as the route passes it on: non-empty, stripped, upper-case, without a comma. */
  predicate CleanState(e: string)
  {
    && e != []
    && !IsSpace(e[0]) && !IsSpace(e[|e| - 1])
    && (forall k :: 0 <= k < |e| ==> !('a' <= e[k] <= 'z'))
    && ',' !in e
  }

  /** The pieces that are not blank, stripped and upper-cased, in order. */
  function CleanPieces(ps: seq<string>): (r: seq<string>)
    requires forall p :: p in ps ==> ',' !in p
    ensures |r| <= |ps|
    ensures forall e :: e in r ==> CleanState(e)
  {
    if ps == [] then []
    else
      var p := Strip(ps[0]);
      if p != [] then CleanStrip(ps[0]); [Upper(p)] + CleanPieces(ps[1..])
      else CleanPieces(ps[1..])
  }

  /** A comma-free piece that is not blank becomes a clean state code. */
  lemma CleanStrip(s: string)
    requires ',' !in s && Strip(s) != []
    ensures CleanState(Upper(Strip(s)))
  {
    var p := Strip(s);
    UpperKeepsShape(p);
    UpperIdempotent(p);
    forall k | 0 <= k < |p| ensures p[k] != ',' {
      StripChars(s, k);
    }
  }

  /** Every character of the strip is a character of the string. */
  lemma StripChars(s: string, k: nat)
    requires k < |Strip(s)|
    ensures Strip(s)[k] in s
  {
    var a := StripStart(s);
    assert Strip(s)[k] == a[k] == s[|s| - |a| + k];
  }

  /** Line 17: `[s.strip().upper() for s in states_raw.split(',') if s.strip()]`. */
  function ParseStates(raw: string): (r: seq<string>)
    ensures |r| <= |Split(raw)|
    ensures forall e :: e in r ==> CleanState(e)
  {
    CleanPieces(Split(raw))
  }

  /** One comma-free piece: nothing when it is blank, its strip upper-cased otherwise. */
  lemma ParseStatesPiece(p: string)
    requires ',' !in p
    ensures ParseStates(p) == if Strip(p) == [] then [] else [Upper(Strip(p))]
  {
    SplitFree(p);
    CleanPiecesHead(p, []);
    assert [p] + [] == [p];
  }

  /** The pieces on either side of a comma are parsed independently, in order. */
  lemma ParseStatesAppend(a: string, b: string)
    requires ',' !in a
    ensures ParseStates(a + "," + b) == ParseStates(a) + ParseStates(b)
  {
    SplitPrefix(a, b);
    ParseStatesPiece(a);
    CleanPiecesHead(a, Split(b));
  }

  /** The first piece contributes its cleaned code, when it is not blank, before the rest. */
  lemma CleanPiecesHead(p: string, ps: seq<string>)
    requires ',' !in p && forall q :: q in ps ==> ',' !in q
    ensures CleanPieces([p] + ps) == (if Strip(p) == [] then [] else [Upper(Strip(p))]) + CleanPieces(ps)
  {
    assert ([p] + ps)[1..] == ps;
  }

  /** A clean piece passes through unchanged. */
  lemma CleanPieceKept(e: string)
    requires CleanState(e)
    ensures Strip(e) == e && Upper(e) == e
  {
    StripTrimmed(e);
  }

  lemma {:induction false} CleanPiecesIdentity(ps: seq<string>)
    requires forall p :: p in ps ==> CleanState(p) && ',' !in p
    ensures CleanPieces(ps) == ps
  {
    if ps != [] {
      CleanPieceKept(ps[0]);
      CleanPiecesIdentity(ps[1..]);
    }
  }

  /** Typing a list of clean state codes separated by commas gives back exactly that list. */
  lemma ParseStatesJoin(states: seq<string>)
    requires forall e :: e in states ==> CleanState(e)
    ensures ParseStates(Join(states)) == states
  {
    if states == [] {
      assert Split("") == [""];
      StripTrimmed("");
    } else {
      SplitJoin(states);
      CleanPiecesIdentity(states);
    }
  }

  /** A state field holding only spaces and commas asks for no state filter. */
  lemma BlankStates(raw: string)
    requires forall k :: 0 <= k < |raw| ==> raw[k] == ',' || IsSpace(raw[k])
    ensures ParseStates(raw) == []
  {
    BlankSplit(raw);
    forall p | p in Split(raw) ensures Strip(p) == [] {
      StripEmptyIff(p);
    }
    BlankPiecesGone(Split(raw));
  }

  /** The pieces of a string of spaces and commas are all spaces. */
  lemma {:induction false} BlankSplit(raw: string)
    requires forall k :: 0 <= k < |raw| ==> raw[k] == ',' || IsSpace(raw[k])
    ensures forall p :: p in Split(raw) ==> forall k :: 0 <= k < |p| ==> IsSpace(p[k])
  {
    if raw != [] {
      BlankSplit(raw[1..]);
      var rest := Split(raw[1..]);
      if raw[0] != ',' {
        var first := [raw[0]] + rest[0];
        assert rest[0] in rest;
        assert forall k :: 0 <= k < |first| ==> IsSpace(first[k]);
        assert Split(raw) == [first] + rest[1..];
        forall p | p in Split(raw) ensures forall k :: 0 <= k < |p| ==> IsSpace(p[k]) {
          if p != first {
            assert p in rest;
          }
        }
      }
    }
  }

  lemma {:induction false} BlankPiecesGone(ps: seq<string>)
    requires forall p :: p in ps ==> ',' !in p && Strip(p) == []
    ensures CleanPieces(ps) == []
  {
    if ps != [] {
      BlankPiecesGone(ps[1..]);
    }
  }

  /** `request.form.get(key, default)`. */
  function Field(form: Form, key: string, default: string): string
  {
    if key in form then form[key] else default
  }

  /** Line 16-17 together: the states asked for, from a field that may be absent. */
  function States(form: Form): seq<string>
  {
    ParseStates(Field(form, "states", ""))
  }

  /** The sliders of lines 22-30, in the order the dictionary is built. */
  const PriorityKeys: seq<string> := ["academics", "value", "professors", "diversity", "urbanicity", "campus", "prestige"]

  /**
   * `float(request.form.get(k, 0) or 0)`: an absent or empty field reads as 0; anything else is
   * handed to `float`, here the parameter `toFloat`, which fails with `None`.
   */
  function Slider(form: Form, k: string, toFloat: string -> Option<real>): (r: Option<real>)
    ensures k !in form || form[k] == "" ==> r == Some(0.0)
    ensures k in form && form[k] != "" ==> r == toFloat(form[k])
  {
    if k !in form || form[k] == "" then Some(0.0) else toFloat(form[k])
  }

  /**
   * The sliders named by `keys`, read in order: the first one `float` cannot read is the error the
   * route raises; otherwise a value per key.
   */
  function ReadSliders(form: Form, keys: seq<string>, toFloat: string -> Option<real>): (r: Result<map<string, real>, string>)
    ensures r.Ok? <==> forall k :: k in keys ==> Slider(form, k, toFloat).Some?
    ensures r.Ok? ==> r.value.Keys == set k | k in keys
    ensures r.Err? ==> exists i :: (0 <= i < |keys| && keys[i] == r.error && Slider(form, r.error, toFloat).None?
      && forall j :: 0 <= j < i ==> Slider(form, keys[j], toFloat).Some?)
  {
    if keys == [] then Ok(map[])
    else
      var init := keys[..|keys| - 1];
      var last := keys[|keys| - 1];
      assert keys == init + [last];
      var before := ReadSliders(form, init, toFloat);
      if before.Err? then
        var i :| 0 <= i < |init| && init[i] == before.error && Slider(form, before.error, toFloat).None?
          && forall j :: 0 <= j < i ==> Slider(form, init[j], toFloat).Some?;
        assert keys[i] == init[i];
        Err(before.error)
      else
        var v := Slider(form, last, toFloat);
        if v.None? then
          assert forall j :: 0 <= j < |init| ==> Slider(form, keys[j], toFloat).Some? by {
            forall j | 0 <= j < |init| ensures Slider(form, keys[j], toFloat).Some? {
              assert keys[j] == init[j] && init[j] in init;
            }
          }
          Err(last)
        else
          Ok(before.value[last := v.value])
  }

  /** Each value read is what the slider holds: its number, or 0 when left blank. */
  lemma {:induction false} ReadSlidersValues(form: Form, keys: seq<string>, toFloat: string -> Option<real>)
    requires ReadSliders(form, keys, toFloat).Ok?
    ensures forall k :: k in keys ==> Some(ReadSliders(form, keys, toFloat).value[k]) == Slider(form, k, toFloat)
  {
    if keys != [] {
      var init := keys[..|keys| - 1];
      assert keys == init + [keys[|keys| - 1]];
      ReadSlidersValues(form, init, toFloat);
    }
  }

  /** Lines 22-30: the priorities dictionary, or the key whose `float` conversion fails. */
  function Priorities(form: Form, toFloat: string -> Option<real>): (r: Result<map<string, real>, string>)
    ensures r.Ok? ==> r.value.Keys == {"academics", "value", "professors", "diversity", "urbanicity", "campus", "prestige"}
    ensures r.Err? ==> r.error in PriorityKeys
  {
    var r := ReadSliders(form, PriorityKeys, toFloat);
    if r.Err? then
      var i :| 0 <= i < |PriorityKeys| && PriorityKeys[i] == r.error;
      r
    else
      assert (set k | k in PriorityKeys) == {"academics", "value", "professors", "diversity", "urbanicity", "campus", "prestige"};
      r
  }

  /** A form without any slider gives every priority the value 0. */
  lemma NoSlidersAllZero(form: Form, toFloat: string -> Option<real>)
    requires forall k :: k in PriorityKeys ==> k !in form
    ensures Priorities(form, toFloat).Ok?
    ensures forall k :: k in Priorities(form, toFloat).value ==> Priorities(form, toFloat).value[k] == 0.0
  {
    ReadSlidersValues(form, PriorityKeys, toFloat);
  }

  /** `request.form.get(key, type=int)` and `type=float`: absent or unreadable fields give `None`. */
  function Typed<T>(form: Form, key: string, convert: string -> Option<T>): (r: Option<T>)
    ensures key !in form ==> r.None?
    ensures key in form ==> r == convert(form[key])
  {
    if key in form then convert(form[key]) else None
  }
}
