/** The on-disk envelope of a .par file: either a raw container, one zlib
    stream holding the container, or two concatenated zlib streams (a
    wrapper header, then the container). The decompressor and compressor
    are parameters; only the dispatch between the three shapes is modelled. */
module ParEnvelope {
  import opened Wire
  import opened ParModel

  /** The zlib operations the envelope relies on. `inflate` decompresses
      the first stream of its input and returns the output together with
      the input bytes the stream did not consume (`decompressobj` and its
      `unused_data`); `deflate` is `zlib.compress`. */
  datatype Zlib = Zlib(
    inflate: seq<byte> -> Result<(seq<byte>, seq<byte>)>,
    deflate: seq<byte> -> seq<byte>)

  /** What zlib guarantees: a compressed stream starts with the CMF byte
      0x78 (deflate with a 32K window, section 2.2 of RFC 1950), is at
      least four bytes long, and inflating it followed by any bytes gives
      back the original and leaves those bytes unconsumed. */
  ghost predicate Lawful(z: Zlib)
  {
    && (forall d :: |z.deflate(d)| >= 4 && z.deflate(d)[0] == 0x78)
    && (forall d, rest :: z.inflate(z.deflate(d) + rest) == Ok((d, rest)))
  }

  /** The result of `decompress_par_file`: the container bytes, the
      wrapper stream's content when there were two streams, and whether
      the file was compressed. */
  datatype Unwrapped = Unwrapped(par: seq<byte>, wrapper: Option<seq<byte>>, wasCompressed: bool)

  /** `data[:4] == PAR_MAGIC`. */
  predicate StartsPar(data: seq<byte>)
  {
    |data| >= 4 && data[..4] == PAR_MAGIC
  }

  /** `data[:4]`, as the error messages show it. */
  function Head(data: seq<byte>): (r: seq<byte>)
    ensures |r| <= 4 && r <= data
  {
    if |data| < 4 then data else data[..4]
  }

  /** decompress_par_file. */
  function Decompress(z: Zlib, raw: seq<byte>): (r: Result<Unwrapped>)
    ensures r.Ok? ==> StartsPar(r.value.par)
    ensures r.Ok? && !r.value.wasCompressed ==> r.value.par == raw && r.value.wrapper.None?
    ensures (|raw| < 4 || raw[0] != 0x78) && !StartsPar(raw) ==> r == Err(UnknownFormat(Head(raw)))
    ensures |raw| >= 4 && raw[0] == 0x78 && z.inflate(raw).Err? ==> r == Err(z.inflate(raw).error)
  {
    if |raw| < 4 || raw[0] != 0x78 then
      if StartsPar(raw) then Ok(Unwrapped(raw, None, false))
      else Err(UnknownFormat(Head(raw)))
    else
      var first :- z.inflate(raw);
      var wrapper, remaining := first.0, first.1;
      if |remaining| == 0 then
        if StartsPar(wrapper) then Ok(Unwrapped(wrapper, None, true))
        else Err(SingleStreamNotPar(Head(wrapper)))
      else
        var second :- z.inflate(remaining);
        var par := second.0;
        if !StartsPar(par) then Err(Stream2NotPar(Head(par)))
        else Ok(Unwrapped(par, Some(wrapper), true))
  }

  /** compress_par_file: one stream, or the wrapper's stream followed by
      the container's. */
  function Compress(z: Zlib, par: seq<byte>, wrapper: Option<seq<byte>>): (r: seq<byte>)
    ensures wrapper.None? ==> r == z.deflate(par)
    ensures wrapper.Some? ==> r == z.deflate(wrapper.value) + z.deflate(par)
  {
    match wrapper
    case None => z.deflate(par)
    case Some(w) => z.deflate(w) + z.deflate(par)
  }

  /** An uncompressed container is passed through untouched. */
  lemma RawPassThrough(z: Zlib, raw: seq<byte>)
    requires StartsPar(raw)
    ensures Decompress(z, raw) == Ok(Unwrapped(raw, None, false))
  {
    assert raw[0] == PAR_MAGIC[0];
  }

  /** A single compressed stream decompresses to the container it holds. */
  lemma SingleStreamRoundTrip(z: Zlib, par: seq<byte>)
    requires Lawful(z) && StartsPar(par)
    ensures Decompress(z, Compress(z, par, None)) == Ok(Unwrapped(par, None, true))
  {
    var raw := z.deflate(par);
    assert raw + [] == raw;
    assert z.inflate(raw + []) == Ok((par, []));
  }

  /** With a wrapper, the first stream gives the wrapper back, the
      unconsumed input is the second stream, and it gives the container. */
  lemma DualStreamRoundTrip(z: Zlib, par: seq<byte>, wrapper: seq<byte>)
    requires Lawful(z) && StartsPar(par)
    ensures Decompress(z, Compress(z, par, Some(wrapper))) == Ok(Unwrapped(par, Some(wrapper), true))
  {
    var s1, s2 := z.deflate(wrapper), z.deflate(par);
    assert z.inflate(s1 + s2) == Ok((wrapper, s2));
    assert s2 + [] == s2;
    assert z.inflate(s2 + []) == Ok((par, []));
    assert (s1 + s2)[0] == s1[0];
  }

  /** Saving what was loaded: compressing a decompressed file again with
      its wrapper gives a file that decompresses to the same container and
      wrapper. */
  lemma RecompressRoundTrip(z: Zlib, raw: seq<byte>)
    requires Lawful(z) && Decompress(z, raw).Ok?
    ensures var u := Decompress(z, raw).value;
            Decompress(z, Compress(z, u.par, u.wrapper)) == Ok(u.(wasCompressed := true))
  {
    var u := Decompress(z, raw).value;
    if u.wrapper.Some? {
      DualStreamRoundTrip(z, u.par, u.wrapper.value);
    } else {
      SingleStreamRoundTrip(z, u.par);
    }
  }
}
