/** Output-resolution negotiation: `parseResolution` in resampler.py. A
    resolution is a width/height pair (the source keeps it as a two-element
    list). */
module Resolution {
  import opened Results
  import opened PyText

  datatype Res = Res(width: int, height: int)

  datatype ResolutionError = InvalidResolution

  /** The sentinel that keeps the input resolution. */
  const Unchanged: string := "UNCHANGED"

  /** `int()` applied to every piece, in order; `None` as soon as one piece is
      not an integer literal. */
  function ParseAll(parts: seq<string>): (r: Option<seq<int>>)
    ensures r.Some? <==> forall i :: 0 <= i < |parts| ==> ParseInt(parts[i]).Some?
    ensures r.Some? ==> |r.value| == |parts|
    ensures r.Some? ==> forall i :: 0 <= i < |parts| ==> ParseInt(parts[i]) == Some(r.value[i])
  {
    if |parts| == 0 then Some([])
    else
      match ParseInt(parts[0])
      case None => None
      case Some(v) =>
        match ParseAll(parts[1..])
        case None => None
        case Some(vs) => Some([v] + vs)
  }

  /** A `"<width>x<height>"` token: exactly two `x`-separated integer literals.
      Signs and magnitudes are not checked. */
  function ParseSize(token: string): (r: Option<Res>)
    ensures r.Some? <==>
      var parts := Split(token, 'x');
      |parts| == 2 && ParseInt(parts[0]).Some? && ParseInt(parts[1]).Some?
    ensures r.Some? ==>
      var parts := Split(token, 'x');
      ParseInt(parts[0]) == Some(r.value.width) && ParseInt(parts[1]) == Some(r.value.height)
  {
    match ParseAll(Split(token, 'x'))
    case None => None
    case Some(values) =>
      if |values| != 2 then None else Some(Res(values[0], values[1]))
  }

  /** `parseResolution(in_res, out_res)`. */
  function ParseResolution(inRes: Res, outRes: string): (r: Result<Res, ResolutionError>)
    ensures outRes == Unchanged ==> r == Ok(inRes)
    ensures outRes != Unchanged ==> (r.Ok? <==> ParseSize(outRes).Some?)
    ensures outRes != Unchanged && r.Ok? ==> r.value == ParseSize(outRes).value
  {
    if outRes == Unchanged then Ok(inRes)
    else
      match ParseSize(outRes)
      case None => Err(InvalidResolution)
      case Some(res) => Ok(res)
  }

  /** The `f'{w}x{h}'` spelling of a resolution, as the encoder command uses it. */
  function FormatRes(res: Res): (s: string)
    ensures Split(s, 'x') == [IntToString(res.width), IntToString(res.height)]
  {
    var w := IntToString(res.width);
    var h := IntToString(res.height);
    IntToStringHasNoX(res.width);
    IntToStringHasNoX(res.height);
    assert Join([w, h], 'x') == w + "x" + h;
    SplitJoin([w, h], 'x');
    w + "x" + h
  }

  lemma IntToStringHasNoX(n: int)
    ensures 'x' !in IntToString(n)
  {
    var s := IntToString(n);
    var digits := if n < 0 then s[1..] else s;
    assert s == if n < 0 then [s[0]] + digits else digits;
  }

  /** The formatted size splits on `x` into its two printed integers. */
  lemma ParseAllSingle(y: string, b: int)
    requires ParseInt(y) == Some(b)
    ensures ParseAll([y]) == Some([b])
  {
    assert [y][0] == y && [y][1..] == [];
    assert ParseAll([]) == Some([]);
    assert ParseInt([y][0]) == Some(b);
    assert [b] + [] == [b];
  }

  lemma ParseAllPair(x: string, y: string, a: int, b: int)
    requires ParseInt(x) == Some(a) && ParseInt(y) == Some(b)
    ensures ParseAll([x, y]) == Some([a, b])
  {
    ParseAllSingle(y, b);
    assert [x, y][0] == x && [x, y][1..] == [y];
    assert [a] + [b] == [a, b];
  }

  lemma ParseSizeFormat(res: Res)
    ensures ParseSize(FormatRes(res)) == Some(res)
  {
    var w, h := IntToString(res.width), IntToString(res.height);
    ParseIntRoundTrip(res.width);
    ParseIntRoundTrip(res.height);
    ParseAllPair(w, h, res.width, res.height);
    assert ParseAll(Split(FormatRes(res), 'x')) == Some([res.width, res.height]);
  }

  lemma FormatIsNotUnchanged(res: Res)
    ensures FormatRes(res) != Unchanged
  {
    IntToStringHasNoX(res.width);
    assert FormatRes(res)[|IntToString(res.width)|] == 'x';
    assert 'x' !in Unchanged;
  }

  /** Every formatted resolution parses back to itself, negative numbers included. */
  lemma ParseFormatRoundTrip(inRes: Res, res: Res)
    ensures ParseSize(FormatRes(res)) == Some(res)
    ensures ParseResolution(inRes, FormatRes(res)) == Ok(res)
  {
    ParseSizeFormat(res);
    FormatIsNotUnchanged(res);
  }

  /** A token that parses is the formatting of what it parses to, up to the
      spelling of each integer. */
  lemma ParsedTokenHasOneX(token: string)
    requires ParseSize(token).Some?
    ensures token == Split(token, 'x')[0] + "x" + Split(token, 'x')[1]
  {
    JoinSplit(token, 'x');
    var parts := Split(token, 'x');
    assert parts[1..] == [parts[1]];
  }

  lemma ParseResolutionKeepsUnchanged()
    ensures ParseResolution(Res(1920, 1080), "UNCHANGED") == Ok(Res(1920, 1080))
  {
  }

  lemma ParseResolution720p()
    ensures ParseResolution(Res(1920, 1080), "1280x720") == Ok(Res(1280, 720))
  {
    ParseFormatRoundTrip(Res(1920, 1080), Res(1280, 720));
    Spell720p();
  }

  lemma Spell720p()
    ensures FormatRes(Res(1280, 720)) == "1280x720"
  {
    assert NatToString(1) == "1";
    assert NatToString(12) == "1" + "2";
    assert NatToString(128) == "12" + "8";
    assert NatToString(1280) == "128" + "0";
    assert NatToString(7) == "7";
    assert NatToString(72) == "7" + "2";
    assert NatToString(720) == "72" + "0";
  }

  lemma ParseResolutionRejectsBogus()
    ensures ParseResolution(Res(1920, 1080), "bogus") == Err(InvalidResolution)
  {
    SplitPlain("bogus", 'x');
    assert |Split("bogus", 'x')| == 1;
  }

  lemma ParseResolutionRejectsMissingHeight()
    ensures ParseResolution(Res(1920, 1080), "1920x") == Err(InvalidResolution)
  {
    SplitPrefix("1920", "", 'x');
    SplitPlain("", 'x');
    assert "1920" + "x" + "" == "1920x";
    assert ParseInt("") == None;
  }

  lemma ParseResolutionRejectsThreeParts()
    ensures ParseResolution(Res(1920, 1080), "1x2x3") == Err(InvalidResolution)
  {
    SplitJoin(["1", "2", "3"], 'x');
    assert Join(["1", "2", "3"], 'x') == "1x2x3";
  }
}
