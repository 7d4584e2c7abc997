// Validation of publications and records (src/registry.cpp:36-127,
// src/capability.cpp:69-118, src/quirk.cpp:120-227, src/hardware.cpp:75-108,
// src/compatibility.cpp:108-152), check by check.
module Validation {
  import opened Basics
  import C = Conditions
  import Q = Quirks
  import V = Versions
  import opened Model
  import opened Steps

  method ValidateRecord(config: Config, r: Record) returns (ok: bool)
    ensures ok <==> ValidRecord(config, r)
  {
    hide AllowedFor;
    if r.device == 0 || r.deviceGeneration == 0 || r.capability == 0 || r.schema == 0 || r.source.publisher.id == 0 { return false; }
    if r.source.sourceClass == Unspecified { return false; }
    if !AllowedFor(r.source.provenance, r.source.sourceClass) { return false; }
    if r.withdrawn && (r.support != Support.Unknown || r.value != NoValue) { return false; }
    if r.conditions.Node? {
      ok := C.ValidateCondition(r.conditions, config.limits.conditions);
    } else {
      ok := true;
    }
  }

  method ValidateQuirk(config: Config, q: Quirk) returns (ok: bool)
    ensures ok <==> ValidQuirk(config, q)
  {
    if q.id == 0 || q.generation == 0 || q.impacted == [] { return false; }
    if q.applicability.platformConditions.Node? {
      ok := C.ValidateCondition(q.applicability.platformConditions, config.limits.conditions);
    } else {
      ok := true;
    }
  }

  method ValidateHardware(h: Q.Hardware) returns (ok: bool)
    ensures ok <==> ValidHardware(h)
  {
    if h.vendor == 0 { return false; }
    if h.family == 0 && h.model == 0 { return false; }
    return true;
  }

  method ValidateRegistration(r: Registration) returns (ok: bool)
    ensures ok <==> ValidRegistration(r)
  {
    if r.device == 0 || r.incarnation == 0 { return false; }
    ok := ValidateHardware(r.hardware);
  }

  method ValidateFact(config: Config, f: Fact) returns (ok: bool)
    ensures ok <==> ValidFact(config, f)
  {
    hide AllowedFor, V.Compare, V.Parse;
    if f.id == 0 || f.generation == 0 { return false; }
    if f.lhs.token == 0 || f.rhs.token == 0 { return false; }
    if SameReference(f.lhs, f.rhs) { return false; }
    if f.reason != "" && |f.reason| > config.limits.maxMetadataBytes { return false; }
    if (f.outcome == Incompatible || f.outcome == UnsupportedCompatibility) && f.reason == "" { return false; }
    if !f.window.Valid() { return false; }
    if f.source.publisher.id == 0 || f.source.sourceClass == Unspecified { return false; }
    if !AllowedFor(f.source.provenance, f.source.sourceClass) { return false; }
    if f.conditions.Node? {
      ok := C.ValidateCondition(f.conditions, config.limits.conditions);
    } else {
      ok := true;
    }
  }

  method ValidatePublication(config: Config, p: Publication) returns (ok: bool)
    ensures ok <==> Validated(config, p)
  {
    hide ValidRecord, ValidQuirk, ValidFact, ValidRegistration;
    if p.publisher.id == 0 || p.publisher.boot == 0 || !p.wellFormed { return false; }
    match p.kind {
      case RegisterDevice => ok := ValidateRegistration(p.device);
      case PublishDeviceGeneration => ok := ValidateRegistration(p.device);
      case PublishCapability =>
        ok := ValidateRecord(config, p.capability);
        ok := ok && !p.capability.withdrawn;
      case WithdrawCapability =>
        ok := ValidateRecord(config, p.capability);
        ok := ok && p.capability.withdrawn;
      case PublishQuirk => ok := ValidateQuirk(config, p.quirk);
      case WithdrawQuirk => ok := ValidateQuirk(config, p.quirk);
      case PublishCompatibility =>
        ok := ValidateFact(config, p.compatibility);
        ok := ok && !p.compatibility.withdrawn;
      case WithdrawCompatibility =>
        ok := ValidateFact(config, p.compatibility);
        ok := ok && p.compatibility.withdrawn;
      case _ => ok := true;
    }
  }
}
