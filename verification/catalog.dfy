/** The service directory the matcher ranks: one record per location, and the record paired
    with the score a query gave it. */
module Catalog {

  /** A service location: its name, street address, telephone contact and keyword tags. */
  datatype Location = Location(name: string, address: string, contact: string, tags: seq<string>)

  /** A location together with the score one query gave it (`{ ...loc, score }`). */
  datatype Scored = Scored(location: Location, score: int)

  /** The directory shipped with the application: ten services of Araraquara, in the order in
      which they are listed, which is also the order that breaks ties between equal scores. */
  const LOCATIONS: seq<Location> := [
    Location("UPA Vila Xavier", "R. Mal. Deodoro da Fonseca, 900", "(16) 3305-1500",
             ["saude", "grave", "urgencia", "24h", "fratura", "infarto", "falta de ar"]),
    Location("UPA Valle Verde", "Av. Bercholina Alves Carvalho Conceição", "(16) 3336-3500",
             ["saude", "grave", "urgencia", "24h"]),
    Location("UPA Central", "Via Expressa", "(16) 3334-6900",
             ["saude", "grave", "urgencia", "24h"]),
    Location("UBS (Unidade Básica de Saúde)", "Consultar unidade mais próxima do usuário", "0800-771-7723",
             ["saude", "leve", "vacina", "receita", "curativo", "febre"]),
    Location("Casa de Acolhida", "Av. Sete de Setembro, 678 - Carmo", "(16) 3336-7510",
             ["acolhimento", "pernoite", "itinerante", "24h", "masculino", "feminino"]),
    Location("Associação São Pio", "Av. Santa Catarina, 137 - Jd. Aclimação", "(16) 3331-5999",
             ["acolhimento", "pernoite", "animais", "pet", "feminino", "masculino"]),
    Location("Sacrário de Amor", "Av. Feijó, 69 - Centro", "(16) 3322-4242",
             ["acolhimento", "pernoite", "masculino"]),
    Location("Centro Pop", "Av. Bandeirantes, 1000 - Centro", "(16) 3336-2633",
             ["social", "documentos", "higiene", "diurno", "cafe"]),
    Location("Organização Bento XVI", "Rua Expedicionários do Brasil, 2525", "(16) 3332-6171",
             ["social", "alimentacao", "banho", "diurno"]),
    Location("CAPS AD", "Av. Maria Antônia Camargo de Oliveira, 2921", "(16) 3331-4860",
             ["saude", "mental", "drogas", "alcool", "dependencia"])
  ]
}
