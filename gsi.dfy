/** The ACPI GSI layer of drivers/acpi/gsi.c: the mapping from an ACPI
    trigger/polarity pair to a Linux IRQ type, the GSI-to-IRQ result rule,
    registration through the interrupt controller's populate callback, and
    the three globals the controller sets. */
module AcpiGsi {
  import opened Kernel

  /** ACPI trigger and polarity values. */
  const ACPI_LEVEL_SENSITIVE: int := 0
  const ACPI_EDGE_SENSITIVE: int := 1
  const ACPI_ACTIVE_HIGH: int := 0
  const ACPI_ACTIVE_LOW: int := 1
  const ACPI_ACTIVE_BOTH: int := 2

  /** Linux IRQ types. */
  const IRQ_TYPE_NONE: u32 := 0
  const IRQ_TYPE_EDGE_RISING: u32 := 1
  const IRQ_TYPE_EDGE_FALLING: u32 := 2
  const IRQ_TYPE_EDGE_BOTH: u32 := 3
  const IRQ_TYPE_LEVEL_HIGH: u32 := 4
  const IRQ_TYPE_LEVEL_LOW: u32 := 8

  /** acpi_gsi_get_irq_type. Active-both with a level trigger falls through
      to the default, as does any polarity other than the three. */
  function GetIrqType(trigger: int, polarity: int): (t: u32)
    ensures polarity == ACPI_ACTIVE_LOW ==>
              t == (if trigger == ACPI_EDGE_SENSITIVE then IRQ_TYPE_EDGE_FALLING else IRQ_TYPE_LEVEL_LOW)
    ensures polarity == ACPI_ACTIVE_HIGH ==>
              t == (if trigger == ACPI_EDGE_SENSITIVE then IRQ_TYPE_EDGE_RISING else IRQ_TYPE_LEVEL_HIGH)
    ensures t == IRQ_TYPE_EDGE_BOTH <==> polarity == ACPI_ACTIVE_BOTH && trigger == ACPI_EDGE_SENSITIVE
    ensures t == IRQ_TYPE_NONE <==>
              (polarity == ACPI_ACTIVE_BOTH && trigger != ACPI_EDGE_SENSITIVE)
              || (polarity != ACPI_ACTIVE_LOW && polarity != ACPI_ACTIVE_HIGH && polarity != ACPI_ACTIVE_BOTH)
  {
    if polarity == ACPI_ACTIVE_LOW then
      (if trigger == ACPI_EDGE_SENSITIVE then IRQ_TYPE_EDGE_FALLING else IRQ_TYPE_LEVEL_LOW)
    else if polarity == ACPI_ACTIVE_HIGH then
      (if trigger == ACPI_EDGE_SENSITIVE then IRQ_TYPE_EDGE_RISING else IRQ_TYPE_LEVEL_HIGH)
    else if polarity == ACPI_ACTIVE_BOTH && trigger == ACPI_EDGE_SENSITIVE then IRQ_TYPE_EDGE_BOTH
    else IRQ_TYPE_NONE
  }

  /** The trigger mode an IRQ type encodes: edge types are the low two bits
      (IRQ_TYPE_EDGE_BOTH), level types bits 2 and 3. */
  predicate IsEdgeType(t: u32)
  {
    t == IRQ_TYPE_EDGE_RISING || t == IRQ_TYPE_EDGE_FALLING || t == IRQ_TYPE_EDGE_BOTH
  }

  /** The reverse mapping: any type other than NONE tells the trigger and
      the polarity back, so two pairs with the same type agree on both. */
  lemma IrqTypeDeterminesTriggerAndPolarity(tr1: int, p1: int, tr2: int, p2: int)
    requires GetIrqType(tr1, p1) != IRQ_TYPE_NONE && GetIrqType(tr1, p1) == GetIrqType(tr2, p2)
    ensures p1 == p2
    ensures (tr1 == ACPI_EDGE_SENSITIVE) == (tr2 == ACPI_EDGE_SENSITIVE)
    ensures IsEdgeType(GetIrqType(tr1, p1)) <==> tr1 == ACPI_EDGE_SENSITIVE
  {
  }

  /** acpi_gsi_to_irq's return value for what irq_find_mapping gave: the
      IRQ number when it is non-zero, else -EINVAL. The unsigned number is
      returned as an int, so one of 2^31 or more comes back negative. */
  function GsiToIrqResult(irq: u32): (r: int)
    ensures irq == 0 ==> r == -Code(EINVAL)
    ensures 0 < irq < 0x8000_0000 ==> r == irq
    ensures irq >= 0x8000_0000 ==> r == irq - 0x1_0000_0000 && r < 0
  {
    if irq > 0 then (if irq < 0x8000_0000 then irq else irq - 0x1_0000_0000) else -Code(EINVAL)
  }

  /** A positive result is always the mapping found, and failure is always
      signalled by a negative result. */
  lemma GsiToIrqPositiveIsMapping(irq: u32)
    ensures GsiToIrqResult(irq) > 0 ==> GsiToIrqResult(irq) == irq
    ensures GsiToIrqResult(irq) != 0
  {
  }

  /** The interrupt controller's populate callback: the error it returns for
      a GSI and an IRQ type (0 on success). */
  type Populate = (u32, u32) -> int

  /** acpi_irq_model, acpi_gsi_domain_token and acpi_gsi_descriptor_populate. */
  class GsiLayer {
    var irqModel: nat
    var domainToken: u64
    var populate: Option<Populate>

    constructor ()
      ensures irqModel == 0 && domainToken == 0 && populate.None?
    {
      irqModel := 0;
      domainToken := 0;
      populate := None;
    }

    /** acpi_set_irq_model: stores the three values and nothing else. */
    method SetIrqModel(model: nat, token: u64, p: Option<Populate>)
      modifies this
      ensures irqModel == model && domainToken == token && populate == p
    {
      irqModel := model;
      domainToken := token;
      populate := p;
    }

    /** acpi_register_gsi: -EINVAL without a populate callback, the
        callback's error when it fails, else what irq_create_acpi_mapping
        returns (`mapping`). The callback sees the IRQ type of the trigger
        and polarity. */
    method RegisterGsi(gsi: u32, trigger: int, polarity: int, mapping: int) returns (r: int)
      ensures populate.None? ==> r == -Code(EINVAL)
      ensures populate.Some? && populate.value(gsi, GetIrqType(trigger, polarity)) != 0 ==>
                r == populate.value(gsi, GetIrqType(trigger, polarity))
      ensures populate.Some? && populate.value(gsi, GetIrqType(trigger, polarity)) == 0 ==> r == mapping
    {
      var irqType := GetIrqType(trigger, polarity);
      if populate.None? {
        return -Code(EINVAL);
      }
      var err := populate.value(gsi, irqType);
      if err != 0 {
        return err;
      }
      return mapping;
    }
  }

  /** Once a controller has set its model, registration goes through its
      callback: -EINVAL comes back only when the callback itself says so. */
  method SetThenRegister(layer: GsiLayer, model: nat, token: u64, p: Populate, gsi: u32,
                         trigger: int, polarity: int, mapping: int)
    returns (r: int)
    modifies layer
    ensures p(gsi, GetIrqType(trigger, polarity)) == 0 ==> r == mapping
    ensures p(gsi, GetIrqType(trigger, polarity)) != 0 ==> r == p(gsi, GetIrqType(trigger, polarity))
    ensures layer.irqModel == model && layer.domainToken == token && layer.populate == Some(p)
  {
    layer.SetIrqModel(model, token, Some(p));
    r := layer.RegisterGsi(gsi, trigger, polarity, mapping);
  }
}
