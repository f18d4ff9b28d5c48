/** The one image sniffer: a type from leading bytes, never from a name. */
module ImageSniff {
  import opened Common

  const PngMagic: Bytes := [0x89, 0x50, 0x4E, 0x47, 0x0D, 0x0A, 0x1A, 0x0A]
  const Gif87a: Bytes := [0x47, 0x49, 0x46, 0x38, 0x37, 0x61]
  const Gif89a: Bytes := [0x47, 0x49, 0x46, 0x38, 0x39, 0x61]
  const Riff: Bytes := [0x52, 0x49, 0x46, 0x46]
  const Webp: Bytes := [0x57, 0x45, 0x42, 0x50]

  function SniffImageMime(b: Bytes): string {
    if |b| >= 3 && b[0] == 0xFF && b[1] == 0xD8 && b[2] == 0xFF then "image/jpeg"
    else if |b| >= 8 && b[..8] == PngMagic then "image/png"
    else if |b| >= 6 && (b[..6] == Gif87a || b[..6] == Gif89a) then "image/gif"
    else if |b| >= 12 && b[..4] == Riff && b[8..12] == Webp then "image/webp"
    else ""
  }

  /** Twelve bytes are enough to decide. */
  lemma WindowDecides(b: Bytes)
    ensures SniffImageMime(if |b| < 12 then b else b[..12]) == SniffImageMime(b)
  {
    if |b| >= 12 {
      var h := b[..12];
      assert h[..8] == b[..8] && h[..6] == b[..6] && h[..4] == b[..4] && h[8..12] == b[8..12];
    }
  }

  /** The leading bytes of each format, by their own specifications. */
  ghost predicate Signed(b: Bytes, mime: string) {
    (mime == "image/jpeg" && [0xFF, 0xD8, 0xFF] <= b)
    || (mime == "image/png" && [0x89] + Ascii("PNG") + [0x0D, 0x0A, 0x1A, 0x0A] <= b)
    || (mime == "image/gif" && (Ascii("GIF87a") <= b || Ascii("GIF89a") <= b))
    || (mime == "image/webp" && |b| >= 12 && b[..4] == Ascii("RIFF") && b[8..12] == Ascii("WEBP"))
  }

  lemma SignatureBytes()
    ensures PngMagic == [0x89] + Ascii("PNG") + [0x0D, 0x0A, 0x1A, 0x0A]
    ensures Gif87a == Ascii("GIF87a") && Gif89a == Ascii("GIF89a") && Riff == Ascii("RIFF") && Webp == Ascii("WEBP")
  {
  }

  /** Each type is given exactly to the bytes that carry its signature, no bytes
      carry two, and without one there is no type. */
  lemma TypeIsTheSignature(b: Bytes)
    ensures forall mime :: mime != "" ==> (SniffImageMime(b) == mime <==> Signed(b, mime))
    ensures SniffImageMime(b) == "" <==> forall mime :: !Signed(b, mime)
    ensures forall m, n :: Signed(b, m) && Signed(b, n) ==> m == n
  {
    hide Ascii;
    SignatureBytes();
    SignedFirst(b);
    Typed(b);
  }

  /** The formats differ in their first byte. */
  lemma SignedFirst(b: Bytes)
    ensures forall mime :: Signed(b, mime) ==> b != []
    ensures Signed(b, "image/jpeg") ==> b[0] == 0xFF
    ensures Signed(b, "image/png") ==> b[0] == 0x89
    ensures Signed(b, "image/gif") ==> b[0] == 0x47
    ensures Signed(b, "image/webp") ==> b[0] == 0x52
  {
    hide Ascii;
    SignatureBytes();
    assert |b| >= 4 ==> b[..4][0] == b[0];
  }

  lemma Typed(b: Bytes)
    ensures SniffImageMime(b) == "image/jpeg" <==> Signed(b, "image/jpeg")
    ensures SniffImageMime(b) == "image/png" <==> Signed(b, "image/png")
    ensures SniffImageMime(b) == "image/gif" <==> Signed(b, "image/gif")
    ensures SniffImageMime(b) == "image/webp" <==> Signed(b, "image/webp")
  {
    hide Ascii;
    SignatureBytes();
    SignedFirst(b);
  }
}
