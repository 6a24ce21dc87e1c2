/** Byte by byte: what the loaded image holds and where in the file an address is looked up. */
module ImageBytes {
  import opened Words
  import opened Memory
  import opened PeImage

  /** The section answers for the address: with its virtual or its raw size, whichever is larger. */
  predicate Within(s: Section, a: nat) {
    s.rva <= a && (a < s.rva + s.virtualSize || a < s.rva + s.rawSize)
  }

  /** The raw data of the section is loaded there. */
  predicate Raw(s: Section, a: nat) { s.rva <= a < s.rva + s.rawSize }

  /** The offset is taken from the first section that answers, and there is none without such a section. */
  lemma {:induction false} OffsetIs(sections: seq<Section>, a: nat, k: nat)
    requires k <= |sections| && (forall i :: 0 <= i < k ==> !Within(sections[i], a)) && (k < |sections| ==> Within(sections[k], a))
    ensures FileOffset(sections, a) ==
            if k == |sections| then None else Some(sections[k].rawOffset + a - sections[k].rva)
    decreases k
  {
    if k > 0 {
      assert !Within(sections[0], a);
      OffsetIs(sections[1..], a, k - 1);
    }
  }

  /** The image exists exactly when headers and all raw data are in the file and fit. */
  lemma {:induction false} SectionsFit(file: Bytes, image: Bytes, sections: seq<Section>)
    ensures WithSections(file, image, sections).Some? <==>
            forall s :: s in sections && s.rawSize > 0 ==> s.rawOffset + s.rawSize <= |file| && s.rva + s.rawSize <= |image|
    decreases |sections|
  {
    if sections != [] {
      assert sections == [sections[0]] + sections[1..];
      if Copies(file, |image|, sections[0]) { SectionsFit(file, WithSection(file, image, sections[0]), sections[1..]); }
    }
  }

  lemma BuildsExactly(file: Bytes, size: nat, headers: nat, sections: seq<Section>)
    ensures Build(file, size, headers, sections).Some? <==>
            && headers <= |file| && headers <= size
            && forall s :: s in sections && s.rawSize > 0 ==> s.rawOffset + s.rawSize <= |file| && s.rva + s.rawSize <= size
  {
    if headers <= |file| && headers <= size { SectionsFit(file, Blank(file, size, headers), sections); }
  }

  /** Of the sections from `n` on none is loaded at the address. */
  predicate NoneFrom(sections: seq<Section>, n: nat, a: nat) {
    forall i :: n <= i < |sections| ==> !Raw(sections[i], a)
  }

  lemma {:induction false} SectionByte(file: Bytes, image: Bytes, sections: seq<Section>, a: nat, k: nat)
    requires WithSections(file, image, sections).Some? && a < |image|
    requires k < |sections| && Raw(sections[k], a) && NoneFrom(sections, k + 1, a)
    ensures var from := sections[k].rawOffset + a - sections[k].rva;
            from < |file| && WithSections(file, image, sections).value[a] == file[from]
    decreases |sections|
  {
    WithSectionByte(file, image, sections[0], a);
    if k > 0 {
      SectionByte(file, WithSection(file, image, sections[0]), sections[1..], a, k - 1);
    } else {
      UntouchedByte(file, WithSection(file, image, sections[0]), sections[1..], a);
    }
  }

  lemma {:induction false} UntouchedByte(file: Bytes, image: Bytes, sections: seq<Section>, a: nat)
    requires WithSections(file, image, sections).Some? && a < |image| && NoneFrom(sections, 0, a)
    ensures WithSections(file, image, sections).value[a] == image[a]
    decreases |sections|
  {
    if sections != [] {
      WithSectionByte(file, image, sections[0], a);
      assert !Raw(sections[0], a);
      UntouchedByte(file, WithSection(file, image, sections[0]), sections[1..], a);
    }
  }

  /** Every byte is that of the last section loaded over it, else of the headers, else zero. */
  lemma ImageByte(file: Bytes, size: nat, headers: nat, sections: seq<Section>, a: nat, k: nat)
    requires Build(file, size, headers, sections).Some? && a < size && NoneFrom(sections, k, a)
    requires k <= |sections| && (k > 0 ==> Raw(sections[k - 1], a))
    ensures var image := Build(file, size, headers, sections).value;
            |image| == size && image[a] ==
              if k > 0 then Byte(file, sections[k - 1].rawOffset + a - sections[k - 1].rva) else if a < headers then file[a] else 0
  {
    var blank := Blank(file, size, headers);
    if k > 0 { SectionByte(file, blank, sections, a, k - 1); } else { UntouchedByte(file, blank, sections, a); }
  }

  function Byte(file: Bytes, at: int): u8 { if 0 <= at < |file| then file[at] else 0 }
}
