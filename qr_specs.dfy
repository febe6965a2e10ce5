/** The table of symbol versions js/qr.js supports: versions 1 to 3 at
    error-correction level L. The codeword counts are those of Table 7
    (section 7.4.10) and Table 9 (section 7.5.1) of ISO/IEC 18004:2015, the
    alignment pattern positions those of its Annex E. */
module QrSpecs {
  import opened Common

  datatype QrSpec = QrSpec(moduleCount: nat, dataCodewords: nat, ecCodewords: nat, align: seq<nat>)

  /** `QR_SPECS[version]`, `None` where the object has no such key. */
  function SpecOf(version: int): (r: Option<QrSpec>)
    ensures r.Some? <==> 1 <= version <= 3
    ensures r.Some? ==> r.value.moduleCount == 17 + 4 * version
    ensures r.Some? ==> 19 <= r.value.dataCodewords <= 55
    ensures r.Some? ==> r.value.dataCodewords + r.value.ecCodewords == [26, 44, 70][version - 1]
    ensures r.Some? ==> (version == 1 <==> r.value.align == [])
  {
    if version == 1 then Some(QrSpec(21, 19, 7, []))
    else if version == 2 then Some(QrSpec(25, 34, 10, [6, 18]))
    else if version == 3 then Some(QrSpec(29, 55, 15, [6, 22]))
    else None
  }

  predicate Supported(version: int) {
    SpecOf(version).Some?
  }
}
