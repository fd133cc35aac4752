/** The CORS part of the application settings: `allowed_origins` is one
    comma-separated string, turned into the list of origins by splitting at
    every comma and stripping each piece. */
module Config {
  import opened Text

  const DefaultAllowedOrigins: string := "http://localhost:3000,http://localhost:8080"

  datatype Settings = Settings(allowedOrigins: string)

  const DefaultSettings: Settings := Settings(DefaultAllowedOrigins)

  /** The number of commas in `s`. */
  function Commas(s: string): nat
  {
    if s == [] then 0 else (if s[0] == ',' then 1 else 0) + Commas(s[1..])
  }

  /** Python's `s.split(",")`: the pieces between commas, empty ones
      included, in order. */
  function Split(s: string): (pieces: seq<string>)
    ensures |pieces| == Commas(s) + 1
  {
    if s == [] then [[]]
    else
      var rest := Split(s[1..]);
      if s[0] == ',' then [[]] + rest
      else [[s[0]] + rest[0]] + rest[1..]
  }

  /** The pieces joined back with commas. */
  function Join(pieces: seq<string>): string
    requires |pieces| >= 1
  {
    if |pieces| == 1 then pieces[0] else pieces[0] + "," + Join(pieces[1..])
  }

  /** Splitting loses nothing: joining the pieces with commas gives the
      string back. */
  lemma {:induction false} JoinSplit(s: string)
    ensures Join(Split(s)) == s
  {
    if s != [] {
      JoinSplit(s[1..]);
      var rest := Split(s[1..]);
      if s[0] == ',' {
        assert Split(s) == [[]] + rest;
        assert Split(s)[1..] == rest;
        assert s == [','] + s[1..];
      } else {
        var pieces := Split(s);
        assert pieces[0] == [s[0]] + rest[0] && pieces[1..] == rest[1..];
        if |rest| == 1 {
          assert s == [s[0]] + rest[0];
        } else {
          assert Join(rest) == rest[0] + "," + Join(rest[1..]);
          assert s == [s[0]] + s[1..];
        }
      }
    }
  }

  /** Comma-free pieces are what splitting their join gives back. */
  lemma {:induction false} SplitJoin(pieces: seq<string>)
    requires |pieces| >= 1
    requires forall i :: 0 <= i < |pieces| ==> ',' !in pieces[i]
    ensures Split(Join(pieces)) == pieces
  {
    if |pieces| == 1 {
      SplitCommaFree(pieces[0]);
    } else {
      SplitJoin(pieces[1..]);
      SplitAppend(pieces[0], Join(pieces[1..]));
      SplitCommaFree(pieces[0]);
      assert pieces == [pieces[0]] + pieces[1..];
    }
  }

  /** A comma-free string is a single piece. */
  lemma {:induction false} SplitCommaFree(s: string)
    requires ',' !in s
    ensures Split(s) == [s]
  {
    if s != [] {
      assert ',' !in s[1..] by {
        forall k | 0 <= k < |s[1..]| ensures s[1..][k] != ',' {
          assert s[1..][k] == s[k + 1];
        }
      }
      SplitCommaFree(s[1..]);
      assert [s[0]] + s[1..] == s;
    }
  }

  /** Splitting a string that starts with `c`: a comma opens a new piece,
      any other character joins the first piece. */
  lemma SplitCons(c: char, s: string)
    ensures Split([c] + s) ==
      if c == ',' then [[]] + Split(s) else [[c] + Split(s)[0]] + Split(s)[1..]
  {
    assert ([c] + s)[0] == c && ([c] + s)[1..] == s;
  }

  /** No piece holds a comma. */
  lemma {:induction false} SplitNoComma(s: string)
    ensures forall i :: 0 <= i < |Split(s)| ==> ',' !in Split(s)[i]
  {
    if s != [] {
      SplitNoComma(s[1..]);
      SplitCons(s[0], s[1..]);
      assert [s[0]] + s[1..] == s;
    }
  }

  /** Growing the first piece commutes with appending further pieces. */
  lemma GrowFirstAppend(c: char, ra: seq<string>, rb: seq<string>)
    requires |ra| >= 1
    ensures [[c] + (ra + rb)[0]] + (ra + rb)[1..] == ([[c] + ra[0]] + ra[1..]) + rb
  {
    assert (ra + rb)[0] == ra[0];
    assert (ra + rb)[1..] == ra[1..] + rb;
  }

  /** Splitting `a + "," + b` splits `a` and `b` separately. */
  lemma {:induction false} SplitAppend(a: string, b: string)
    ensures Split(a + "," + b) == Split(a) + Split(b)
  {
    var s := a + "," + b;
    if a == [] {
      assert s[0] == ',' && s[1..] == b;
    } else {
      var tail := a[1..] + "," + b;
      assert s[0] == a[0] && s[1..] == tail;
      SplitAppend(a[1..], b);
      var ra, rb := Split(a[1..]), Split(b);
      if a[0] != ',' {
        calc {
          Split(s);
          [[a[0]] + Split(tail)[0]] + Split(tail)[1..];
          [[a[0]] + (ra + rb)[0]] + (ra + rb)[1..];
          { GrowFirstAppend(a[0], ra, rb); }
          ([[a[0]] + ra[0]] + ra[1..]) + rb;
          Split(a) + rb;
        }
      }
    }
  }

  /** The `origins_list` property: each comma-separated piece, stripped. */
  function OriginsList(settings: Settings): (origins: seq<string>)
    ensures |origins| == Commas(settings.allowedOrigins) + 1
    ensures forall i :: 0 <= i < |origins| ==> origins[i] == Strip(Split(settings.allowedOrigins)[i])
  {
    var pieces := Split(settings.allowedOrigins);
    seq(|pieces|, i requires 0 <= i < |pieces| => Strip(pieces[i]))
  }

  /** No origin begins or ends with whitespace, and none holds a comma. */
  lemma OriginsTrimmed(settings: Settings)
    ensures forall i :: 0 <= i < |OriginsList(settings)| ==>
      var o := OriginsList(settings)[i];
      (o == [] || (!IsSpace(o[0]) && !IsSpace(o[|o| - 1]))) && ',' !in o
  {
    var pieces := Split(settings.allowedOrigins);
    var origins := OriginsList(settings);
    SplitNoComma(settings.allowedOrigins);
    forall i | 0 <= i < |origins|
      ensures var o := origins[i];
        (o == [] || (!IsSpace(o[0]) && !IsSpace(o[|o| - 1]))) && ',' !in o
    {
      var p := pieces[i];
      StripSlice(p);
      var j := LeadingSpaces(p);
      assert origins[i] == p[j..j + |origins[i]|];
    }
  }

  /** Origins listed without extra whitespace come back exactly. */
  lemma OriginsOfJoin(origins: seq<string>)
    requires |origins| >= 1
    requires forall i :: 0 <= i < |origins| ==> ',' !in origins[i]
    requires forall i :: 0 <= i < |origins| ==>
      origins[i] == [] || (!IsSpace(origins[i][0]) && !IsSpace(origins[i][|origins[i]| - 1]))
    ensures OriginsList(Settings(Join(origins))) == origins
  {
    SplitJoin(origins);
    forall i | 0 <= i < |origins| ensures Strip(origins[i]) == origins[i] {
      StripUnchanged(origins[i]);
    }
  }

  /** The default setting lists the two local front-end origins. */
  lemma DefaultOrigins()
    ensures OriginsList(DefaultSettings) == ["http://localhost:3000", "http://localhost:8080"]
  {
    var a := "http://localhost:3000";
    var b := "http://localhost:8080";
    assert [a, b][1..] == [b];
    assert Join([a, b]) == a + "," + b;
    assert DefaultAllowedOrigins == a + "," + b;
    assert ',' !in a && ',' !in b;
    assert !IsSpace(a[0]) && !IsSpace(a[|a| - 1]) && !IsSpace(b[0]) && !IsSpace(b[|b| - 1]);
    OriginsOfJoin([a, b]);
  }
}
