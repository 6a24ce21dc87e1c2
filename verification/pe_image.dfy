/** PE sections: building the loaded image from the file, and mapping an address back to the file. */
module PeImage {
  import opened Words
  import opened Memory

  datatype Section = Section(rva: u32, virtualSize: u32, rawOffset: u32, rawSize: u32) {
    /** Bytes of address space the section answers for. */
    function Mapped(): nat { if virtualSize > rawSize then virtualSize else rawSize }

    predicate Has(a: nat) { rva <= a < rva + Mapped() }
  }

  /** `rva_to_file_offset`: the first section that contains the address decides. */
  function FileOffset(sections: seq<Section>, a: nat): Option<nat> {
    if sections == [] then None
    else if sections[0].Has(a) then Some(sections[0].rawOffset + (a - sections[0].rva))
    else FileOffset(sections[1..], a)
  }

  function Put(image: Bytes, at: nat, data: Bytes): (r: Bytes)
    requires at + |data| <= |image|
    ensures |r| == |image|
  {
    image[..at] + data + image[at + |data|..]
  }

  /** The section's raw data lies inside the file and the image. */
  predicate Copies(file: Bytes, size: nat, s: Section) {
    s.rawSize == 0 || (s.rawOffset + s.rawSize <= |file| && s.rva + s.rawSize <= size)
  }

  function WithSection(file: Bytes, image: Bytes, s: Section): (r: Bytes)
    requires Copies(file, |image|, s)
    ensures |r| == |image|
  {
    if s.rawSize == 0 then image else Put(image, s.rva, file[s.rawOffset..s.rawOffset + s.rawSize])
  }

  function WithSections(file: Bytes, image: Bytes, sections: seq<Section>): (r: Option<Bytes>)
    ensures r.Some? ==> |r.value| == |image|
    decreases |sections|
  {
    if sections == [] then Some(image)
    else if !Copies(file, |image|, sections[0]) then None
    else WithSections(file, WithSection(file, image, sections[0]), sections[1..])
  }

  function Zeros(n: nat): (z: Bytes)
    ensures |z| == n
    ensures forall i :: 0 <= i < n ==> z[i] == 0
  {
    if n == 0 then [] else Zeros(n - 1) + [0]
  }

  /** `build_loaded_image_from_parsed`: headers, then every section's raw data. */
  function Build(file: Bytes, size: nat, headers: nat, sections: seq<Section>): Option<Bytes> {
    if headers > |file| || headers > size then None
    else WithSections(file, Blank(file, size, headers), sections)
  }

  /** The headers, and zeros after them. */
  function Blank(file: Bytes, size: nat, headers: nat): (b: Bytes)
    requires headers <= |file| && headers <= size
    ensures |b| == size
  {
    Put(Zeros(size), 0, file[..headers])
  }

  /** `copy_section`, into the image in place. */
  method CopySection(file: Bytes, image: array<u8>, s: Section) returns (ok: bool)
    modifies image
    ensures ok == Copies(file, image.Length, s)
    ensures image[..] == if ok then WithSection(file, old(image[..]), s) else old(image[..])
  {
    var count := Min(s.rawSize, s.Mapped());
    if count == 0 { return true; }
    if s.rawOffset + count > |file| || s.rva + count > image.Length { return false; }
    forall i | s.rva <= i < s.rva + count {
      image[i] := file[s.rawOffset + (i - s.rva)];
    }
    assert image[..] == Put(old(image[..]), s.rva, file[s.rawOffset..s.rawOffset + s.rawSize]);
    return true;
  }

  /** The image is filled in place, section by section; a section that does not fit fails. */
  method BuildImage(file: Bytes, size: nat, headers: nat, sections: seq<Section>) returns (r: Option<array<u8>>)
    ensures r.Some? == Build(file, size, headers, sections).Some?
    ensures r.Some? ==> fresh(r.value) && r.value[..] == Build(file, size, headers, sections).value
  {
    if headers > |file| || headers > size { return None; }
    var image := new u8[size](i => 0);
    forall i | 0 <= i < headers {
      image[i] := file[i];
    }
    ghost var start := Blank(file, size, headers);
    assert image[..] == start;
    var n := 0;
    assert sections[0..] == sections;
    while n < |sections|
      invariant 0 <= n <= |sections| && fresh(image) && image.Length == size
      invariant WithSections(file, image[..], sections[n..]) == WithSections(file, start, sections)
    {
      assert sections[n..][1..] == sections[n + 1..];
      var ok := CopySection(file, image, sections[n]);
      if !ok { return None; }
      n := n + 1;
    }
    return Some(image);
  }

  // ---- the two agree -------------------------------------------------------------------

  /** No two sections answer for the same address. */
  ghost predicate Disjoint(sections: seq<Section>) {
    forall i, j, a: nat {:trigger sections[i].Has(a), sections[j].Has(a)} ::
      0 <= i < j < |sections| ==> !(sections[i].Has(a) && sections[j].Has(a))
  }

  lemma WithSectionByte(file: Bytes, image: Bytes, s: Section, a: nat)
    requires Copies(file, |image|, s) && a < |image|
    ensures WithSection(file, image, s)[a] ==
            if s.rva <= a < s.rva + s.rawSize then file[s.rawOffset + (a - s.rva)] else image[a]
  {
  }

  lemma {:induction false} OthersKeep(file: Bytes, image: Bytes, sections: seq<Section>, a: nat)
    requires WithSections(file, image, sections).Some? && a < |image|
    requires forall i :: 0 <= i < |sections| ==> !sections[i].Has(a)
    ensures WithSections(file, image, sections).value[a] == image[a]
    decreases |sections|
  {
    if sections != [] {
      assert !sections[0].Has(a);
      var next := WithSection(file, image, sections[0]);
      WithSectionByte(file, image, sections[0], a);
      assert forall i :: 0 <= i < |sections| - 1 ==> sections[1..][i] == sections[i + 1];
      OthersKeep(file, next, sections[1..], a);
    }
  }

  /** A byte of a section is, in the image, the raw byte the section copies there, or else what
      was there before. */
  lemma {:induction false} SectionByte(file: Bytes, image: Bytes, sections: seq<Section>, k: nat, a: nat)
    requires WithSections(file, image, sections).Some? && Disjoint(sections)
    requires k < |sections| && sections[k].Has(a) && a < |image| && Copies(file, |image|, sections[k])
    ensures var s, built := sections[k], WithSections(file, image, sections).value;
            built[a] == if a < s.rva + s.rawSize then file[s.rawOffset + (a - s.rva)] else image[a]
    ensures FileOffset(sections, a) == Some(sections[k].rawOffset + (a - sections[k].rva))
    decreases |sections|
  {
    var s, next, rest := sections[0], WithSection(file, image, sections[0]), sections[1..];
    assert forall i :: 0 <= i < |rest| ==> rest[i] == sections[i + 1];
    WithSectionByte(file, image, s, a);
    if k == 0 {
      forall i | 0 <= i < |rest| ensures !rest[i].Has(a) { assert sections[0].Has(a) && sections[i + 1] == rest[i]; }
      OthersKeep(file, next, rest, a);
    } else {
      assert !sections[0].Has(a) by { assert sections[k].Has(a); }
      RestDisjoint(sections);
      SectionByte(file, next, rest, k - 1, a);
    }
  }

  lemma RestDisjoint(sections: seq<Section>)
    requires Disjoint(sections) && sections != []
    ensures Disjoint(sections[1..])
  {
    var rest := sections[1..];
    forall i, j, a: nat {:trigger rest[i].Has(a), rest[j].Has(a)} | 0 <= i < j < |rest|
      ensures !(rest[i].Has(a) && rest[j].Has(a))
    {
      assert rest[i] == sections[i + 1] && rest[j] == sections[j + 1];
    }
  }

  /** An address past the headers: where the file says its byte comes from is where the image got
      it from, as long as the address is in raw data; the tail of the section is zero. */
  lemma ImageAgreesWithFile(file: Bytes, size: nat, headers: nat, sections: seq<Section>, k: nat, a: nat)
    requires Build(file, size, headers, sections).Some? && Disjoint(sections)
    requires k < |sections| && sections[k].Has(a) && headers <= a < size
    ensures var s, built := sections[k], Build(file, size, headers, sections).value;
            var off := FileOffset(sections, a);
            && off == Some(s.rawOffset + (a - s.rva))
            && (a < s.rva + s.rawSize ==> off.value < |file| && built[a] == file[off.value])
            && (a >= s.rva + s.rawSize ==> built[a] == 0)
  {
    var start := Blank(file, size, headers);
    SectionsCopied(file, start, sections, k);
    SectionByte(file, start, sections, k, a);
    BlankByte(file, size, headers, a);
  }

  lemma BlankByte(file: Bytes, size: nat, headers: nat, a: nat)
    requires headers <= |file| && headers <= a < size
    ensures Blank(file, size, headers)[a] == 0
  {
    assert Zeros(size)[a] == 0;
  }

  lemma {:induction false} SectionsCopied(file: Bytes, image: Bytes, sections: seq<Section>, k: nat)
    requires WithSections(file, image, sections).Some? && k < |sections|
    ensures Copies(file, |image|, sections[k])
    decreases |sections|
  {
    if k > 0 { SectionsCopied(file, WithSection(file, image, sections[0]), sections[1..], k - 1); }
  }
}
