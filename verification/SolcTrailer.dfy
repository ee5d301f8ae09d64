/**
 * scripts/codegen/compare-stripped.js: the comparator on the text the compiler writes behind every
 * runtime object, an IPFS hash and a compiler version.
 */
module SolcTrailer {
  import opened CompareStripped
  import opened Hex
  import opened Results

  const OPEN := "a264697066735822"
  const BETWEEN := "64736f6c6343"
  const CLOSE := "0033"

  /** `a2`, the key `ipfs` with 34 bytes, the key `solc` with 3 bytes, and the length of all that, 0x33. */
  function TrailerText(hash: string, version: string): (s: string)
    ensures |s| == 32 + |hash| + |version|
  {
    OPEN + hash + BETWEEN + version + CLOSE
  }

  const IPFS: seq<byte> := [0x69, 0x70, 0x66, 0x73]
  const SOLC: seq<byte> := [0x73, 0x6f, 0x6c, 0x63]

  lemma OpenBytes()
    ensures IsHex(OPEN) && Bytes(OPEN) == [0xa2, 0x64] + IPFS + [0x58, 0x22]
  {
    assert |Bytes(OPEN)| == 8;
  }

  lemma BetweenBytes()
    ensures IsHex(BETWEEN) && Bytes(BETWEEN) == [0x64] + SOLC + [0x43]
  {
    assert |Bytes(BETWEEN)| == 6;
  }

  lemma CloseBytes()
    ensures IsHex(CLOSE) && Bytes(CLOSE) == [0x00, 0x33]
  {
    assert |Bytes(CLOSE)| == 2;
  }

  function Version(version: seq<byte>): Cbor.Entries {
    Cbor.More(Cbor.Str(Cbor.Tiny, SOLC), Cbor.ByteString(Cbor.Str(Cbor.Tiny, version)), Cbor.End)
  }

  function Hash(hash: seq<byte>, rest: Cbor.Entries): Cbor.Entries {
    Cbor.More(Cbor.Str(Cbor.Tiny, IPFS), Cbor.ByteString(Cbor.Str(Cbor.OneByte, hash)), rest)
  }

  lemma VersionBytes(version: seq<byte>)
    requires |version| == 3
    ensures var es := Version(version);
            es.Fits() && es.Count() == 1 && es.Encode() == [0x64] + SOLC + [0x43] + version
  {
    var es := Version(version);
    assert es.rest.Count() == 0 && es.rest.Fits() && es.rest.Encode() == [];
    assert es.key.Encode(3) == [0x64] + SOLC;
    assert es.value.Encode() == [0x43] + version;
  }

  lemma HashBytes(hash: seq<byte>, rest: Cbor.Entries)
    requires |hash| == 34 && rest.Fits()
    ensures var es := Hash(hash, rest);
            && es.Fits() && es.Count() == 1 + rest.Count()
            && es.Encode() == ([0x64] + IPFS) + (([0x58, 0x22] + hash) + rest.Encode())
  {
    IpfsKey(Cbor.Str(Cbor.Tiny, IPFS));
    HashValue(hash, Cbor.Str(Cbor.OneByte, hash));
    Joined(Cbor.Str(Cbor.Tiny, IPFS), Cbor.ByteString(Cbor.Str(Cbor.OneByte, hash)), rest);
  }

  lemma Joined(key: Cbor.Str, value: Cbor.Value, rest: Cbor.Entries)
    requires key.Header().Fits() && value.Fits() && rest.Fits()
    ensures var es := Cbor.More(key, value, rest);
            && es.Fits() && es.Count() == 1 + rest.Count()
            && es.Encode() == key.Encode(3) + (value.Encode() + rest.Encode())
  {
  }

  lemma IpfsKey(key: Cbor.Str)
    requires key == Cbor.Str(Cbor.Tiny, IPFS)
    ensures key.Header().Fits() && key.Encode(3) == [0x64] + IPFS
  {
  }

  lemma HashValue(hash: seq<byte>, value: Cbor.Str)
    requires value == Cbor.Str(Cbor.OneByte, hash) && |hash| == 34
    ensures Cbor.ByteString(value).Fits() && Cbor.ByteString(value).Encode() == [0x58, 0x22] + hash
  {
    HashHead(value.Header());
  }

  lemma HashHead(h: Cbor.Head)
    requires h == Cbor.Head(Cbor.OneByte, 34)
    ensures h.Fits() && h.Encode(2) == [0x58, 0x22]
  {
    assert Cbor.Argument(0, 0) == [];
    assert Cbor.Argument(1, 34) == [34];
  }

  lemma MapBytes(es: Cbor.Entries, m: Cbor.MetaMap)
    requires m == Cbor.MetaMap(Cbor.Tiny, es) && es.Count() == 2 && es.Fits()
    ensures m.Valid() && m.Encode() == [0xa2] + es.Encode()
  {
    assert m.Header().Encode(5) == [0xa2];
  }

  lemma TrailerOf(hash: seq<byte>, version: seq<byte>)
    requires |hash| == 34 && |version| == 3
    ensures IsTrailer([0xa2, 0x64] + IPFS + [0x58, 0x22] + hash + ([0x64] + SOLC + [0x43]) + version + [0x00, 0x33])
  {
    var es := Hash(hash, Version(version));
    var m := Cbor.MetaMap(Cbor.Tiny, es);
    var b := [0xa2, 0x64] + IPFS + [0x58, 0x22] + hash + ([0x64] + SOLC + [0x43]) + version;
    VersionBytes(version);
    HashBytes(hash, Version(version));
    MapBytes(es, m);
    Flat(hash, [0x64] + SOLC + [0x43] + version);
    assert m.Encode() == b;
    assert m.Size() == |b| == 0x33 && Suffix(0x33) == [0x00, 0x33];
    assert Spells(m, b + [0x00, 0x33]);
  }

  lemma Flat(hash: seq<byte>, rest: seq<byte>)
    ensures [0xa2] + (([0x64] + IPFS) + (([0x58, 0x22] + hash) + rest))
            == [0xa2, 0x64] + IPFS + [0x58, 0x22] + hash + rest
  {
  }

  lemma TrailerBytes(hash: string, version: string)
    requires IsHex(hash) && |hash| == 68 && IsHex(version) && |version| == 6
    ensures IsHex(TrailerText(hash, version)) && IsTrailer(Bytes(TrailerText(hash, version)))
  {
    OpenBytes();
    BetweenBytes();
    CloseBytes();
    BytesConcat(OPEN, hash);
    BytesConcat(OPEN + hash, BETWEEN);
    BytesConcat(OPEN + hash + BETWEEN, version);
    BytesConcat(OPEN + hash + BETWEEN + version, CLOSE);
    TrailerOf(Bytes(hash), Bytes(version));
  }

  /** The runtime of a compiled contract is its code and that trailer, whatever the hash and the version. */
  lemma SolcSplits(code: string, hash: string, version: string)
    requires IsHex(code) && code != "" && IsHex(hash) && |hash| == 68 && IsHex(version) && |version| == 6
    ensures IsHex(code + TrailerText(hash, version))
    ensures SplitMetadata(code + TrailerText(hash, version)) == Split(code, TrailerText(hash, version), 0x33)
  {
    var block := TrailerText(hash, version);
    TrailerBytes(hash, version);
    BytesConcat(code, block);
    SplitFinds(code + block, code, block);
    DeclaredIsLength(code + block);
  }

  lemma DeclaredIsLength(hex: string)
    requires IsHex(hex) && SplitMetadata(hex).Split?
    ensures SplitMetadata(hex).declared == |SplitMetadata(hex).block| / 2 - 2
  {
    assert CutPoint(Bytes(hex)).codeBytes <= |hex| / 2 - 2;
  }

  lemma SolcRuntime(bytecode: string, code: string, hash: string, version: string)
    requires IsHex(code) && code != "" && IsHex(hash) && |hash| == 68 && IsHex(version) && |version| == 6
    ensures RuntimeSide(Artifact(bytecode, Some("0x" + code + TrailerText(hash, version))))
            == Code(code, TrailerText(hash, version))
  {
    var block := TrailerText(hash, version);
    var text := code + block;
    SolcSplits(code, hash, version);
    assert "0x" + code + block == "0x" + text;
    Spelled(text);
    NormalizeExactly(Some("0x" + text), text);
    SideOfSplit(Artifact(bytecode, Some("0x" + text)), text, code, block);
  }

  lemma SideOfSplit(entry: Artifact, text: string, code: string, block: string)
    requires NormalizeHex(entry.deployed) == Clean(text)
    requires SplitMetadata(text).Split? && SplitMetadata(text).code == code && SplitMetadata(text).block == block
    ensures RuntimeSide(entry) == Code(code, block)
  {
  }
}
