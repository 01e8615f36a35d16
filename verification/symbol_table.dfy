/**
 * The assembler's symbol table: a map from symbol to address, pre-loaded with
 * the symbols the Hack platform defines (section 6.2.3 of The Elements of
 * Computing Systems).
 */
module SymbolTable {
  import opened Base

  type Table = map<string, int>

  /** `initSymbolTable`: R0..R15, SCREEN, KBD, SP, LCL, ARG, THIS, THAT, added in that order. */
  function Initial(): Table {
    map[
      "R0" := 0, "R1" := 1, "R2" := 2, "R3" := 3, "R4" := 4, "R5" := 5, "R6" := 6, "R7" := 7,
      "R8" := 8, "R9" := 9, "R10" := 10, "R11" := 11, "R12" := 12, "R13" := 13, "R14" := 14,
      "R15" := 15,
      "SCREEN" := 16384, "KBD" := 24576,
      "SP" := 0, "LCL" := 1, "ARG" := 2, "THIS" := 3, "THAT" := 4]
  }

  /** `addEntry`: binds `symbol` to `address`, replacing any earlier binding. */
  function AddEntry(t: Table, symbol: string, address: int): (r: Table)
    ensures Contains(r, symbol) && GetAddress(r, symbol) == Some(address)
    ensures forall s :: s != symbol ==> Contains(r, s) == Contains(t, s) && GetAddress(r, s) == GetAddress(t, s)
  {
    t[symbol := address]
  }

  /** `contains`. */
  predicate Contains(t: Table, symbol: string) {
    symbol in t
  }

  /** `getAddress`: the bound address, or `None` where Java returns null. */
  function GetAddress(t: Table, symbol: string): (r: Option<int>)
    ensures r.None? <==> !Contains(t, symbol)
    ensures r.Some? ==> r.value == t[symbol]
  {
    if symbol in t then Some(t[symbol]) else None
  }

  /** The predefined symbols are exactly the 23 the Hack platform defines. */
  lemma InitialDomain()
    ensures forall s :: Contains(Initial(), s) <==>
      s in {"R0", "R1", "R2", "R3", "R4", "R5", "R6", "R7", "R8", "R9", "R10", "R11", "R12",
            "R13", "R14", "R15", "SCREEN", "KBD", "SP", "LCL", "ARG", "THIS", "THAT"}
  {
  }

  /** The addresses of the predefined registers and I/O maps. */
  lemma InitialContents()
    ensures GetAddress(Initial(), "R0") == Some(0) && GetAddress(Initial(), "R15") == Some(15)
    ensures GetAddress(Initial(), "SCREEN") == Some(16384) && GetAddress(Initial(), "KBD") == Some(24576)
  {
  }

  /** The addresses of the VM pointers and the translators' scratch registers. */
  lemma InitialPointers()
    ensures GetAddress(Initial(), "SP") == Some(0) && GetAddress(Initial(), "LCL") == Some(1)
    ensures GetAddress(Initial(), "ARG") == Some(2) && GetAddress(Initial(), "THIS") == Some(3)
    ensures GetAddress(Initial(), "THAT") == Some(4)
    ensures GetAddress(Initial(), "R13") == Some(13) && GetAddress(Initial(), "R14") == Some(14)
  {
  }

  /** The symbol-table tests' expectations about adding and overwriting entries. */
  lemma TestScenario()
    ensures var t := AddEntry(AddEntry(AddEntry(Initial(), "LOOP", 10), "END", 20), "i", 16);
            GetAddress(t, "LOOP") == Some(10) && GetAddress(t, "END") == Some(20)
            && GetAddress(t, "i") == Some(16)
            && GetAddress(AddEntry(t, "LOOP", 30), "LOOP") == Some(30)
  {
  }

  /** The symbol-table tests' expectations about membership in a fresh table. */
  lemma TestMembership()
    ensures Contains(Initial(), "R0") && Contains(Initial(), "SCREEN")
    ensures Contains(AddEntry(Initial(), "LOOP", 10), "LOOP")
    ensures GetAddress(Initial(), "R5") == Some(5)
  {
  }

  /** The symbol-table tests' expectations about symbols a fresh table lacks. */
  lemma TestAbsent()
    ensures !Contains(Initial(), "LOOP") && GetAddress(Initial(), "NOTEXIST") == None
  {
  }
}
