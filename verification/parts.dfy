/** The part hierarchy: the abstract Componente and its four subclasses
    (TarjetaMadre, Microprocesador, MemoriaRAM, DiscoDuro) as one tagged variant.
    Only the attributes that the sale path reads are kept. */
module Parts {
  import opened Outcomes

  datatype Kind = MotherboardKind | CpuKind | RamKind | DiskKind

  /** A catalog part. `price` is a BigDecimal that may be null; `available` is the
      quantity cached on the entity (the authoritative level lives in the stock table). */
  datatype Part =
    | Motherboard(id: int, serial: string, price: Option<real>, available: int,
                  socket: string, ramType: string, diskConnections: Option<string>)
    | Cpu(id: int, serial: string, price: Option<real>, available: int,
          socket: string, speed: string)
    | Ram(id: int, serial: string, price: Option<real>, available: int,
          capacity: string, memoryType: string)
    | Disk(id: int, serial: string, price: Option<real>, available: int,
           capacity: string, connection: string)
  {
    function KindOf(): Kind
    {
      match this
      case Motherboard(_, _, _, _, _, _, _) => MotherboardKind
      case Cpu(_, _, _, _, _, _) => CpuKind
      case Ram(_, _, _, _, _, _) => RamKind
      case Disk(_, _, _, _, _, _) => DiskKind
    }

    /** The `tipoComponente` string, fixed by each subclass constructor. */
    function TypeTag(): string
    {
      KindTag(KindOf())
    }
  }

  function KindTag(k: Kind): string
  {
    match k
    case MotherboardKind => "TarjetaMadre"
    case CpuKind => "Microprocesador"
    case RamKind => "MemoriaRAM"
    case DiskKind => "DiscoDuro"
  }

  predicate IsPrefix(fragment: string, text: string)
  {
    |fragment| <= |text| && text[..|fragment|] == fragment
  }

  /** Java's `text.contains(fragment)`: the fragment occurs as a contiguous block. */
  predicate Contains(text: string, fragment: string)
    decreases |text|
  {
    IsPrefix(fragment, text) || (|text| > 0 && Contains(text[1..], fragment))
  }

  ghost predicate OccursAt(text: string, fragment: string, i: int)
  {
    0 <= i && i + |fragment| <= |text| && text[i..i + |fragment|] == fragment
  }

  lemma {:induction false} ContainsIffOccurs(text: string, fragment: string)
    ensures Contains(text, fragment) <==> exists i :: OccursAt(text, fragment, i)
    decreases |text|
  {
    if |text| > 0 {
      ContainsIffOccurs(text[1..], fragment);
    }
    if Contains(text, fragment) {
      if IsPrefix(fragment, text) {
        assert OccursAt(text, fragment, 0);
      } else {
        var j :| OccursAt(text[1..], fragment, j);
        assert text[j + 1..j + 1 + |fragment|] == text[1..][j..j + |fragment|];
        assert OccursAt(text, fragment, j + 1);
      }
    }
    if exists i :: OccursAt(text, fragment, i) {
      var i :| OccursAt(text, fragment, i);
      if i == 0 {
        assert IsPrefix(fragment, text);
      } else {
        assert text[1..][i - 1..i - 1 + |fragment|] == text[i..i + |fragment|];
        assert OccursAt(text[1..], fragment, i - 1);
      }
    }
  }
}
