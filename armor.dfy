/**
 * Transport armor: a payload hidden after the IEND chunk of a one-pixel PNG
 * and closed by a marker. Section 5.3 of the PNG specification (ISO/IEC 15948)
 * lays a chunk out as length, type and CRC; section 11.2.5 defines IEND, whose
 * data is empty, so the payload starts 8 bytes after the start of "IEND".
 */
module Armor {
  import opened Wrappers
  import opened Primitives
  import opened ByteUtil

  // The decoded bytes of the built-in minimal PNG (one pixel, 70 bytes), in rows of 14.
  const PNG_ROW_0: Bytes := [0x89, 0x50, 0x4E, 0x47, 0x0D, 0x0A, 0x1A, 0x0A, 0x00, 0x00, 0x00, 0x0D, 0x49, 0x48]
  const PNG_ROW_1: Bytes := [0x44, 0x52, 0x00, 0x00, 0x00, 0x01, 0x00, 0x00, 0x00, 0x01, 0x08, 0x06, 0x00, 0x00]
  const PNG_ROW_2: Bytes := [0x00, 0x1F, 0x15, 0xC4, 0x89, 0x00, 0x00, 0x00, 0x0D, 0x49, 0x44, 0x41, 0x54, 0x78]
  const PNG_ROW_3: Bytes := [0xDA, 0x63, 0x64, 0x60, 0xF8, 0x5F, 0x0F, 0x00, 0x02, 0x87, 0x01, 0x80, 0xEB, 0x47]
  const PNG_ROW_4: Bytes := [0xBA, 0x92, 0x00, 0x00, 0x00, 0x00, 0x49, 0x45, 0x4E, 0x44, 0xAE, 0x42, 0x60, 0x82]
  const MINIMAL_PNG: Bytes := PNG_ROW_0 + PNG_ROW_1 + PNG_ROW_2 + PNG_ROW_3 + PNG_ROW_4

  /** The ASCII bytes of "CHIMERA_ARMOR_V1". */
  const ARMOR_MAGIC: Bytes := [
    0x43, 0x48, 0x49, 0x4D, 0x45, 0x52, 0x41, 0x5F, 0x41, 0x52, 0x4D, 0x4F, 0x52, 0x5F, 0x56, 0x31]

  /** The chunk type "IEND". */
  const IEND_TYPE: Bytes := [0x49, 0x45, 0x4E, 0x44]

  /** From the start of the IEND type to the end of its chunk: type and CRC. */
  const IEND_TYPE_TO_END: nat := 8

  /** The armored file: PNG, payload, marker. */
  function Armored(payload: Bytes): (r: Bytes)
    ensures |r| == |MINIMAL_PNG| + |payload| + |ARMOR_MAGIC|
    ensures r[..|MINIMAL_PNG|] == MINIMAL_PNG
    ensures r[|MINIMAL_PNG|..|MINIMAL_PNG| + |payload|] == payload
    ensures r[|MINIMAL_PNG| + |payload|..] == ARMOR_MAGIC
  {
    MINIMAL_PNG + payload + ARMOR_MAGIC
  }

  /** `createArmoredPng`: one array, filled with the PNG, the payload and the marker. */
  method CreateArmoredPng(payload: Bytes) returns (armored: Bytes)
    ensures armored == Armored(payload)
  {
    var png := MINIMAL_PNG;
    var file := new byte[|png| + |payload| + |ARMOR_MAGIC|];
    forall i | 0 <= i < |png| {
      file[i] := png[i];
    }
    forall i | 0 <= i < |payload| {
      file[|png| + i] := payload[i];
    }
    forall i | 0 <= i < |ARMOR_MAGIC| {
      file[|png| + |payload| + i] := ARMOR_MAGIC[i];
    }
    armored := file[..];
    assert armored == Armored(payload) by {
      forall i | 0 <= i < file.Length ensures armored[i] == Armored(payload)[i] {
        if i < |png| {
        } else if i < |png| + |payload| {
          assert armored[i] == payload[i - |png|];
        } else {
          assert armored[i] == ARMOR_MAGIC[i - |png| - |payload|];
        }
      }
    }
  }

  /**
   * What `extractFromArmoredPng` returns: None without the marker or without an
   * IEND type; otherwise the bytes from the end of the first IEND chunk up to the
   * first marker (empty when the marker comes first).
   */
  function ExtractArmored(file: Bytes): Option<Bytes> {
    var markerIndex := FirstMatch(file, ARMOR_MAGIC, 0);
    if markerIndex == -1 then None
    else
      var iendIndex := FirstMatch(file, IEND_TYPE, 0);
      if iendIndex == -1 then None
      else Some(JsSlice(file, iendIndex as nat + IEND_TYPE_TO_END, markerIndex as nat))
  }

  method ExtractFromArmoredPng(file: Bytes) returns (r: Option<Bytes>)
    ensures r.None? <==>
      (forall i :: !MatchAt(file, ARMOR_MAGIC, i)) || (forall i :: !MatchAt(file, IEND_TYPE, i))
    ensures r == ExtractArmored(file)
  {
    var markerIndex := FindSubarray(file, ARMOR_MAGIC);
    if markerIndex == -1 {
      return None;
    }
    var iendIndex := FindSubarray(file, IEND_TYPE);
    if iendIndex == -1 {
      return None;
    }
    r := Some(JsSlice(file, iendIndex as nat + IEND_TYPE_TO_END, markerIndex as nat));
  }

  // ------------------------------------------------------------ round trip

  /** Byte `i` of the PNG, read from its row. */
  lemma PngByte(i: nat)
    requires i < 70
    ensures |MINIMAL_PNG| == 70
    ensures i < 14 ==> MINIMAL_PNG[i] == PNG_ROW_0[i]
    ensures 14 <= i < 28 ==> MINIMAL_PNG[i] == PNG_ROW_1[i - 14]
    ensures 28 <= i < 42 ==> MINIMAL_PNG[i] == PNG_ROW_2[i - 28]
    ensures 42 <= i < 56 ==> MINIMAL_PNG[i] == PNG_ROW_3[i - 42]
    ensures 56 <= i ==> MINIMAL_PNG[i] == PNG_ROW_4[i - 56]
  {
  }

  /** The PNG holds no 'C', the marker's first byte. */
  lemma PngLacksMarkerStart()
    ensures |MINIMAL_PNG| == 70
    ensures forall i | 0 <= i < |MINIMAL_PNG| :: MINIMAL_PNG[i] != ARMOR_MAGIC[0]
  {
    assert forall j | 0 <= j < 14 ::
      && PNG_ROW_0[j] != 0x43 && PNG_ROW_1[j] != 0x43 && PNG_ROW_2[j] != 0x43
      && PNG_ROW_3[j] != 0x43 && PNG_ROW_4[j] != 0x43;
    forall i | 0 <= i < 70 ensures MINIMAL_PNG[i] != 0x43 {
      PngByte(i);
    }
  }

  /** Only the marker's last byte is '1'. */
  lemma MarkerEndsUniquely()
    ensures |ARMOR_MAGIC| == 16
    ensures forall k | 0 <= k < 15 :: ARMOR_MAGIC[k] != ARMOR_MAGIC[15]
  {
  }

  /** The PNG's only IEND type is at offset 62. */
  lemma PngIend()
    ensures |MINIMAL_PNG| == 70
    ensures MINIMAL_PNG[62..66] == IEND_TYPE
    ensures forall i | 0 <= i < 62 :: MINIMAL_PNG[i] != 0x49 || MINIMAL_PNG[i + 1] != 0x45
  {
    var s := MINIMAL_PNG[62..66];
    assert s[0] == 0x49 && s[1] == 0x45 && s[2] == 0x4E && s[3] == 0x44;
    assert forall j | 0 <= j < 13 ::
      && (PNG_ROW_0[j] != 0x49 || PNG_ROW_0[j + 1] != 0x45)
      && (PNG_ROW_1[j] != 0x49 || PNG_ROW_1[j + 1] != 0x45)
      && (PNG_ROW_2[j] != 0x49 || PNG_ROW_2[j + 1] != 0x45)
      && (PNG_ROW_3[j] != 0x49 || PNG_ROW_3[j + 1] != 0x45);
    assert forall j | 0 <= j < 6 :: PNG_ROW_4[j] != 0x49;
    assert PNG_ROW_0[13] != 0x49 && PNG_ROW_1[13] != 0x49 && PNG_ROW_2[13] != 0x49 && PNG_ROW_3[13] != 0x49;
    forall i | 0 <= i < 62 ensures MINIMAL_PNG[i] != 0x49 || MINIMAL_PNG[i + 1] != 0x45 {
      PngByte(i);
      PngByte(i + 1);
    }
  }

  /** In an armored file the first IEND type is the PNG's own, at offset 62. */
  lemma FirstIend(payload: Bytes)
    ensures FirstMatch(Armored(payload), IEND_TYPE, 0) == 62
  {
    var file := Armored(payload);
    PngIend();
    assert file[..70] == MINIMAL_PNG;
    assert file[62..66] == MINIMAL_PNG[62..66];
    forall i | 0 <= i < 62 ensures !MatchAt(file, IEND_TYPE, i) {
      var w := file[i..i + 4];
      assert w[0] == MINIMAL_PNG[i] && w[1] == MINIMAL_PNG[i + 1];
      assert w[0] != IEND_TYPE[0] || w[1] != IEND_TYPE[1];
    }
    FirstMatchUnique(file, IEND_TYPE, 62);
  }

  /** No marker starts inside the PNG of an armored file. */
  lemma NoMarkerInPng(file: Bytes, i: nat)
    requires |file| >= |MINIMAL_PNG| && file[..|MINIMAL_PNG|] == MINIMAL_PNG
    requires i < |MINIMAL_PNG|
    ensures !MatchAt(file, ARMOR_MAGIC, i)
  {
    PngLacksMarkerStart();
    if i + 16 <= |file| {
      assert file[i..i + 16][0] == MINIMAL_PNG[i];
    }
  }

  /** The first marker in an armored file is the one appended after the payload. */
  lemma FirstMarker(payload: Bytes)
    requires forall i :: !MatchAt(payload, ARMOR_MAGIC, i)
    ensures FirstMatch(Armored(payload), ARMOR_MAGIC, 0) == |MINIMAL_PNG| + |payload|
  {
    var file := Armored(payload);
    var m := |MINIMAL_PNG| + |payload|;
    MarkerEndsUniquely();
    assert MatchAt(file, ARMOR_MAGIC, m);
    forall i | 0 <= i < m ensures !MatchAt(file, ARMOR_MAGIC, i) {
      if i < |MINIMAL_PNG| {
        NoMarkerInPng(file, i);
      } else if i + 16 <= m {
        var q := i - |MINIMAL_PNG|;
        assert file[i..i + 16] == payload[q..q + 16];
        assert !MatchAt(payload, ARMOR_MAGIC, q);
      } else {
        assert file[i..i + 16][15] == ARMOR_MAGIC[i + 15 - m];
      }
    }
    FirstMatchUnique(file, ARMOR_MAGIC, m);
  }

  /**
   * Extracting an armored file gives back the payload, provided the payload
   * does not itself contain the marker.
   */
  lemma ArmorRoundTrip(payload: Bytes)
    requires forall i :: !MatchAt(payload, ARMOR_MAGIC, i)
    ensures ExtractArmored(Armored(payload)) == Some(payload)
  {
    FirstMarker(payload);
    FirstIend(payload);
  }

  /** A payload containing the marker is cut at its first occurrence. */
  lemma ArmorTruncates(payload: Bytes, q: nat)
    requires MatchAt(payload, ARMOR_MAGIC, q)
    requires forall i | 0 <= i < q :: !MatchAt(payload, ARMOR_MAGIC, i)
    ensures ExtractArmored(Armored(payload)) == Some(payload[..q])
  {
    var file := Armored(payload);
    var m := |MINIMAL_PNG| + q;
    assert file[m..m + 16] == payload[q..q + 16];
    assert file[|MINIMAL_PNG|..m] == payload[..q];
    forall i | 0 <= i < m ensures !MatchAt(file, ARMOR_MAGIC, i) {
      if i < |MINIMAL_PNG| {
        NoMarkerInPng(file, i);
      } else {
        var p := i - |MINIMAL_PNG|;
        assert file[i..i + 16] == payload[p..p + 16];
        assert !MatchAt(payload, ARMOR_MAGIC, p);
      }
    }
    FirstMatchUnique(file, ARMOR_MAGIC, m);
    FirstIend(payload);
  }
}
