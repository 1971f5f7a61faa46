/** The checksum of an archive image across the two programs: the signer sums bit by bit,
    the kernel by its table, and the kernel accepts what the signer wrote. */
module CctkfsChecksum {
  import opened MachineInts
  import opened Cctkfs
  import opened CctkfsSigner
  import opened CctkfsReader
  import opened CctkfsEndToEnd
  import Crc32

  /** The signer with the keyed hash `hmac` and its library's CRC-32. */
  function SignerEnv(hmac: seq<Byte> -> seq<Byte>): Env {
    Env(hmac, Crc32.SerialCrc)
  }

  /** The kernel's header check and table checksum accept every image the signer builds. */
  lemma BuiltIsAccepted(hmac: seq<Byte> -> seq<Byte>, a: Archive)
    requires ArchiveOk(a)
    ensures Validate(Crc32.TableCrc, Build(SignerEnv(hmac), a)) == 0
  {
    Crc32.TableCrcIsSerialCrc(Image(a, 0));
    BuiltPasses(SignerEnv(hmac), Crc32.TableCrc, a);
  }

  /** The whole path from file to module: signing a well-formed archive with distinct
      names gives an image the kernel accepts, in which the name of every module leads
      to that module's blob with its tag. */
  lemma SignedImageServesSignedBlobs(hmac: seq<Byte> -> seq<Byte>, img: seq<Byte>, i: nat, r: Option<(nat, nat)>)
    requires Signed(SignerEnv(hmac), img).Some?
    requires var a := ReadArchive(img).value;
             a.namesSize == |a.names| && NamesInside(a) && NamesDistinct(a) && i < |a.entries|
    ensures var env := SignerEnv(hmac);
            var out := Signed(env, img).value;
            && Validate(Crc32.TableCrc, out) == 0 && Accepted(out)
            && (IsLookup(out, NameOf(ReadArchive(img).value, i), r)
                ==> Delivers(out, r, SignBlob(env, ReadArchive(img).value.entries[i].data)))
  {
    var env := SignerEnv(hmac);
    BuiltIsAccepted(hmac, SignAll(env, ReadArchive(img).value));
    SignedLookup(env, img, i, r);
  }

  /** A whole image whose stored checksum is nonzero passes only with the CRC-32 of what
      the signer would have summed in its place. */
  lemma WrongChecksumIsRefused(a: Archive, c: U32)
    requires ArchiveOk(a) && c != 0
    ensures Validate(Crc32.TableCrc, Image(a, c)) == 0 <==> c == Crc32.SerialCrc(Image(a, 0))
  {
    ImageIsAccepted(a, c);
    ChecksumFieldAlone(a, c);
    HeaderReadsBack(a, c);
    Crc32.TableCrcIsSerialCrc(Image(a, 0));
    ValidateIsExact(Crc32.TableCrc, Image(a, c));
  }
}
