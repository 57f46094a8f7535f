/** The conversation table's MAC column: a MAC whose first three octets
    are in a fixed switch of vendor prefixes gets the vendor's name appended
    in parentheses. */
module VendorNames {
  import opened JavaLang
  import opened HexDump

  /** String.substring past the end of the string. */
  const SubstringError: string := "StringIndexOutOfBoundsException"

  /** The switch of macWithVendor, one row per arm in source order: the vendor
      label and the case labels of the arm, each written as the 24-bit number
      whose six upper-case hex digits (OuiLabel) are the label. */
  const VendorCases: seq<(string, seq<nat>)> := [
    ("Apple", [0xFC349E, 0xD89EF3, 0x70E72C, 0xB827EB, 0x3C0754, 0xFCECDA, 0xA4B197, 0xC85B76, 0x28CFDA]),
    ("Dell", [0xF4E9D4, 0xA4BADB, 0x00219B, 0x0016D3, 0x68F728, 0x54E1AD, 0xB4B676]),
    ("Lenovo", [0x64A651, 0x74E50B, 0x1008B1, 0x00216D]),
    ("HP", [0x3C52E1, 0xE0DB55, 0xF0D5BF, 0x347E5C, 0x6CB7F4, 0x88532E]),
    ("Asus", [0x98E743, 0xF8CAB8, 0x68D925, 0xA44E31]),
    ("Acer", [0x08EDB9, 0xC0E54E]),
    ("Microsoft", [0xBC83A7, 0x5C514F, 0x3497F6]),
    ("Samsung", [0xA088B4, 0x8C7712, 0xB86B23]),
    ("Huawei", [0xF4F5E8, 0x001E10, 0x6C1A84, 0x4C1FCC, 0xE4956E]),
    ("Xiaomi", [0x7C1EB3, 0x30B5C2, 0x38D269, 0x54E6FC, 0x2C4D54]),
    ("Google", [0xA0B4A5, 0x5CBAEF, 0x64006A]),
    ("TP-Link", [0x50C7BF, 0xB0BE76, 0xF4F26D, 0xA044E2]),
    ("Cisco", [0x00163E, 0xF4CE46, 0x001B54, 0x0023AE, 0x0021A0]),
    ("Netgear", [0x388345, 0xC02506]),
    ("Ubiquiti", [0x24A43C, 0x44D9E7, 0x7825AD]),
    ("VirtualBox", [0x080027]),
    ("VMware", [0x000C29, 0x000569, 0x005056, 0x001C14, 0x0050F2]),
    ("Parallels VM", [0x001C42]),
    ("QEMU/KVM", [0x525400]),
    ("Intel", [0x001B21, 0xF8BC12]),
    ("Realtek", [0x001C25, 0xE894F6]),
    ("Zyxel", [0x00235A, 0x000C43]),
    ("D-Link", [0x001C0F, 0x001D0F]),
    ("Linksys/Belkin", [0x001839, 0xF4EC38]),
    ("Arduino", [0x04E548]),
    ("Amazon", [0xF0D2F1, 0x441CA8, 0xB4F1DA]),
    ("Roku", [0x0806C8, 0x000D4B]),
    ("Broadcom", [0x00065B, 0x001018]),
    ("Sony", [0xB0C559, 0xDC2B2A, 0xF05A09]),
    ("LG", [0x00256C, 0xAC7A4D, 0x5C497D]),
    ("Philips", [0x00146D, 0x20E52A]),
    ("Murata", [0x0022FA]),
    ("Bosch", [0x0012F2]),
    ("Bosch Rexroth", [0x00260A]),
    ("Ninebot", [0xA0A868]),
    ("Juniper", [0x000173, 0x001D45]),
    ("Aruba", [0x002233, 0x000D28]),
    ("Fortinet", [0x0019E0]),
    ("MikroTik", [0x4C5E0C, 0x6C3B6B]),
    ("OpenWRT", [0xA4D18F]),
    ("UniFi", [0x18E829]),
    ("Ruckus", [0x884AE9]),
    ("Avaya", [0x001A4B]),
    ("Brother", [0x402E28]),
    ("Canon", [0xD8E0E1]),
    ("Epson", [0xC8A030]),
    ("Zebra", [0x44A842]),
    ("Ricoh", [0x001F29]),
    ("Honeywell", [0x485B39]),
    ("Chicony", [0xAC3FA4]),
    ("NVIDIA", [0x6C8FB5, 0x04E5B8]),
    ("Espressif", [0x24A160, 0x24DC39]),
    ("Tuya", [0xA4C138, 0x7C49EB]),
    ("Foscam", [0x8853D4]),
    ("TPV/Philips", [0xC8F650]),
    ("Nintendo", [0xA0F3C1, 0x0023CC])
  ]

  /** A case label: the six upper-case hex digits of a 24-bit prefix. */
  function OuiLabel(n: nat): (r: string)
    ensures |r| == 6
  {
    [HexDigit(n / 0x10_0000 % 16), HexDigit(n / 0x1_0000 % 16), HexDigit(n / 0x1000 % 16),
     HexDigit(n / 0x100 % 16), HexDigit(n / 0x10 % 16), HexDigit(n % 16)]
  }

  /** The case labels of one arm. */
  function Labels(ks: seq<nat>): (r: seq<string>)
    ensures |r| == |ks|
  {
    seq(|ks|, j requires 0 <= j < |ks| => OuiLabel(ks[j]))
  }

  /** The label of the first arm listing oui, if any. */
  function VendorIn(rows: seq<(string, seq<nat>)>, oui: string): (r: Option<string>)
    ensures r.None? <==> forall i :: 0 <= i < |rows| ==> oui !in Labels(rows[i].1)
    ensures r.Some? ==> exists i :: 0 <= i < |rows| && oui in Labels(rows[i].1) && rows[i].0 == r.value
  {
    if rows == [] then None
    else if oui in Labels(rows[0].1) then Some(rows[0].0)
    else
      var r := VendorIn(rows[1..], oui);
      assert forall i :: 1 <= i < |rows| ==> rows[i] == rows[1..][i - 1];
      r
  }

  function VendorOf(oui: string): Option<string> {
    VendorIn(VendorCases, oui)
  }

  /** The switch key: the colons deleted, the first six characters, upper-cased.
      Fewer than six characters left make substring throw. */
  function OuiOf(mac: string): (r: Result<string>)
    ensures r.Failure? <==> |RemoveChar(mac, ':')| < 6
    ensures r.Success? ==> |r.value| == 6
  {
    var stripped := RemoveChar(mac, ':');
    if |stripped| < 6 then Failure(SubstringError) else Success(ToUpper(stripped[..6]))
  }

  /** macWithVendor; a null MAC is None. */
  function MacWithVendor(mac: Option<string>): (r: Result<Option<string>>)
    ensures mac.None? ==> r == Success(None)
    ensures mac.Some? && |mac.value| < 8 ==> r == Success(mac)
    ensures r.Success? && mac.Some? ==> r.value.Some? && mac.value <= r.value.value
    ensures r.Failure? <==> mac.Some? && |mac.value| >= 8 && OuiOf(mac.value).Failure?
  {
    match mac
    case None => Success(None)
    case Some(m) =>
      if |m| < 8 then Success(mac)
      else match OuiOf(m)
        case Failure(e) => Failure(e)
        case Success(oui) =>
          match VendorOf(oui)
          case None => Success(mac)
          case Some(v) => Success(Some(m + " (" + v + ")"))
  }

  /* ---------------- properties ---------------- */

  /** No case label holds a hyphen. */
  lemma LabelsHaveNoHyphen(ks: seq<nat>, oui: string)
    requires '-' in oui
    ensures oui !in Labels(ks)
  {
    forall j | 0 <= j < |ks|
      ensures Labels(ks)[j] != oui
    {
      var l := OuiLabel(ks[j]);
      assert forall k :: 0 <= k < 6 ==> l[k] != '-';
    }
  }

  /** A MAC whose prefix is in no arm is returned unchanged. */
  lemma UnknownOuiUnchanged(m: string)
    requires |m| >= 8 && OuiOf(m).Success? && VendorOf(OuiOf(m).value).None?
    ensures MacWithVendor(Some(m)) == Success(Some(m))
  {
  }

  /** A known prefix appends exactly " (" + vendor + ")". */
  lemma KnownOuiNamed(m: string, i: nat)
    requires |m| >= 8 && OuiOf(m).Success?
    requires i < |VendorCases| && OuiOf(m).value in Labels(VendorCases[i].1)
    requires forall j :: 0 <= j < i ==> OuiOf(m).value !in Labels(VendorCases[j].1)
    ensures MacWithVendor(Some(m)) == Success(Some(m + " (" + VendorCases[i].0 + ")"))
  {
    FirstArmWins(VendorCases, OuiOf(m).value, i);
  }

  lemma {:induction false} FirstArmWins(rows: seq<(string, seq<nat>)>, oui: string, i: nat)
    requires i < |rows| && oui in Labels(rows[i].1)
    requires forall j :: 0 <= j < i ==> oui !in Labels(rows[j].1)
    ensures VendorIn(rows, oui) == Some(rows[i].0)
  {
    if i > 0 {
      assert oui !in Labels(rows[0].1);
      assert forall j :: 0 <= j < i - 1 ==> rows[1..][j] == rows[j + 1];
      FirstArmWins(rows[1..], oui, i - 1);
    }
  }

  lemma {:induction false} RemoveColonLower(s: string)
    ensures RemoveChar(ToLower(s), ':') == ToLower(RemoveChar(s, ':'))
  {
    if s != [] {
      RemoveColonLower(s[1..]);
      assert ToLower(s)[1..] == ToLower(s[1..]);
      assert ToLower(s) == [LowerChar(s[0])] + ToLower(s[1..]);
    }
  }

  /** The case of the hex digits does not matter: a lower-case MAC selects
      the same arm as the upper-case one. */
  lemma MatchIgnoresCase(m: string)
    ensures OuiOf(ToLower(m)) == OuiOf(m)
  {
    var stripped := RemoveChar(m, ':');
    RemoveColonLower(m);
    if |stripped| >= 6 {
      assert ToLower(stripped)[..6] == ToLower(stripped[..6]);
      UpperOfLower(stripped[..6]);
    }
  }

  lemma {:induction false} RemoveCharAppend(a: string, b: string, c: char)
    ensures RemoveChar(a + b, c) == RemoveChar(a, c) + RemoveChar(b, c)
  {
    if a != [] {
      RemoveCharAppend(a[1..], b, c);
      assert (a + b)[1..] == a[1..] + b;
    } else {
      assert a + b == b;
    }
  }

  lemma {:induction false} RemoveCharAbsent(s: string, c: char)
    requires c !in s
    ensures RemoveChar(s, c) == s
  {
    if s != [] {
      RemoveCharAbsent(s[1..], c);
    }
  }

  /** Only ':' is deleted: a MAC written with hyphens ("08-00-27-...") keeps a
      '-' among the six characters of its key, and no arm has one. */
  lemma HyphenMacUnchanged(m: string)
    requires |m| >= 8 && ':' !in m[..6] && '-' in m[..6]
    ensures MacWithVendor(Some(m)) == Success(Some(m))
  {
    assert m == m[..6] + m[6..];
    RemoveCharAppend(m[..6], m[6..], ':');
    RemoveCharAbsent(m[..6], ':');
    var stripped := RemoveChar(m, ':');
    assert stripped[..6] == m[..6];
    var oui := ToUpper(m[..6]);
    assert OuiOf(m) == Success(oui);
    var k :| 0 <= k < 6 && m[k] == '-';
    assert oui[k] == '-';
    forall i | 0 <= i < |VendorCases|
      ensures oui !in Labels(VendorCases[i].1)
    {
      LabelsHaveNoHyphen(VendorCases[i].1, oui);
    }
  }

  /** Eight colons leave nothing to take six characters from: substring throws. */
  lemma ColonsOnlyFails()
    ensures MacWithVendor(Some("::::::::")).Failure?
  {
    assert RemoveChar("::::::::", ':') == [];
  }
}
